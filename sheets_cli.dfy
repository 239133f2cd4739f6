/** The Python `GoogleSheetsCLI` (src/sheets_cli.py): the splitting of a
    range name into a worksheet and a cell range, the result records of its
    commands, and the dispatch of `main`. The spreadsheet behind `gspread`
    is a `Backend` value: its title and url, and the outcome of each call
    the CLI makes on it. */
module SheetsCli {
  import opened Wrappers
  import opened Text

  /** The worksheet used when a range names none. */
  const DefaultSheet := "Sheet1"

  /** The range `get` reads when none is given. */
  const DefaultRange := "Sheet1!A1:Z1000"

  /** The size `create` gives a new worksheet, passed to gspread as strings. */
  const NewRows := "1000"
  const NewCols := "26"

  type Grid = seq<seq<string>>

  /** A record of `get_all_records`: the header names in column order, each
      with its cell. */
  type Record = seq<(string, string)>

  /** A `gspread` worksheet, as far as the CLI reads it. */
  datatype Worksheet = Worksheet(title: string, id: int, rowCount: int, colCount: int)

  /** The write `worksheet.update(cell_range, [[value]])` makes. */
  datatype CellWrite = CellWrite(worksheet: string, cellRange: string, values: Grid)

  /** The request of `add_worksheet`. */
  datatype AddSheet = AddSheet(title: string, rows: string, cols: string)

  /** The spreadsheet opened by `authenticate`: its title and url, and what
      each call on it returns or raises (the message of the exception). */
  datatype Backend = Backend(
    title: string,
    url: string,
    worksheets: Result<seq<Worksheet>, string>,
    worksheet: string -> Result<Worksheet, string>,
    records: Worksheet -> Result<seq<Record>, string>,
    write: CellWrite -> Option<string>,
    add: AddSheet -> Result<Worksheet, string>)

  /** One entry of a worksheet listing: the dict with `title`, `id`,
      `row_count` and `col_count`. */
  datatype Entry = Entry(title: string, id: int, rowCount: int, colCount: int)

  /** The dicts the commands return, printed as JSON by `main`. */
  datatype CliResult =
    | Error(error: string)
    | Info(title: string, url: string, worksheets: seq<Entry>)
    | Data(range: string, data: seq<Record>, rowCount: nat, headers: seq<string>)
    | Updated(success: bool, range: string, value: string)
    | Created(success: bool, title: string, id: int)
    | Listed(worksheets: seq<Entry>)

  /** How `main` ends: `sys.exit(code)`, or printing a result. */
  datatype Outcome = Exit(code: int) | Printed(result: CliResult)

  // ---------------------------------------------------------------------------
  // Ranges

  /** `update_cell`'s reading of a range name: the text before the first `!`
      and the text between the first and second `!`, or `Sheet1` and the
      whole name when it holds no `!`. */
  function SplitRange(rangeName: string): (string, string) {
    if '!' in rangeName then
      SplitHasSecond(rangeName, '!');
      var parts := Split(rangeName, '!');
      (parts[0], parts[1])
    else (DefaultSheet, rangeName)
  }

  /** The worksheet is named by the text before the first `!`; the cell range
      holds no `!` and follows it, and whatever follows a second `!` is
      dropped. Without a `!` the whole name is the cell range of `Sheet1`. */
  lemma SplitRangeMeans(rangeName: string)
    ensures var (sheet, cell) := SplitRange(rangeName);
            && ('!' in rangeName ==> sheet == Before(rangeName, '!') && '!' !in cell
                                     && StartsWith(rangeName, sheet + "!" + cell)
                                     && cell == Before(rangeName[|sheet| + 1..], '!'))
            && ('!' !in rangeName ==> sheet == DefaultSheet && cell == rangeName)
  {
    if '!' in rangeName {
      var parts := Split(rangeName, '!');
      SplitHasSecond(rangeName, '!');
      SplitPiecesFree(rangeName, '!');
      SplitFirstIsBefore(rangeName, '!');
      JoinSplit(rangeName, '!');
      JoinCons(parts[0], parts[1..], "!");
      assert [parts[0]] + parts[1..] == parts;
      JoinStartsWithFirst(parts[1..], "!");
      assert rangeName == parts[0] + "!" + Join(parts[1..], "!");
      var rest := Join(parts[1..], "!");
      assert rangeName[|parts[0]| + 1..] == rest;
      assert forall i :: 0 <= i < |parts[1..]| ==> '!' !in parts[1..][i];
      SplitJoin(parts[1..], '!');
      SplitFirstIsBefore(rest, '!');
    }
  }

  /** A name built from a worksheet and a cell range without `!` splits back
      into them. */
  lemma SplitRangeRoundTrip(sheet: string, cell: string)
    requires '!' !in sheet && '!' !in cell
    ensures SplitRange(sheet + "!" + cell) == (sheet, cell)
  {
    var parts := [sheet, cell];
    JoinCons(sheet, [cell], "!");
    assert Join(parts, "!") == sheet + "!" + cell;
    SplitJoin(parts, '!');
    assert '!' in sheet + "!" + cell by {
      assert (sheet + "!" + cell)[|sheet|] == '!';
    }
  }

  /** The cell `update-notes` writes: column B of the given row of `Sheet1`. */
  function NotesRange(rowNum: string): string {
    "Sheet1!B" + rowNum
  }

  /** A row number without `!` addresses cell `B<row>` of `Sheet1`. */
  lemma NotesRangeTarget(rowNum: string)
    requires '!' !in rowNum
    ensures SplitRange(NotesRange(rowNum)) == (DefaultSheet, "B" + rowNum)
  {
    assert NotesRange(rowNum) == DefaultSheet + "!" + ("B" + rowNum);
    SplitRangeRoundTrip(DefaultSheet, "B" + rowNum);
  }

  // ---------------------------------------------------------------------------
  // Result records

  /** The header names of a record, in column order. */
  function HeaderNames(r: Record): (names: seq<string>)
    ensures |names| == |r|
    ensures forall i :: 0 <= i < |r| ==> names[i] == r[i].0
  {
    seq(|r|, i requires 0 <= i < |r| => r[i].0)
  }

  /** The `get_worksheet_data` dict of the records read. */
  function DataResult(rangeName: string, data: seq<Record>): (r: CliResult)
    ensures r.Data? && r.range == rangeName && r.data == data && r.rowCount == |data|
    ensures data == [] ==> r.headers == []
    ensures data != [] ==> r.headers == HeaderNames(data[0])
  {
    Data(rangeName, data, |data|, if data == [] then [] else HeaderNames(data[0]))
  }

  /** `get_worksheet_data`: reads all records of the worksheet the range
      names (its cell part is not used); a failed lookup or read is an error
      record. */
  function GetWorksheetData(b: Backend, rangeName: string): (r: CliResult)
    ensures r.Error? <==> b.worksheet(SplitRange(rangeName).0).Failure?
                          || b.records(b.worksheet(SplitRange(rangeName).0).value).Failure?
    ensures b.worksheet(SplitRange(rangeName).0).Failure? ==> r == Error(b.worksheet(SplitRange(rangeName).0).error)
    ensures b.worksheet(SplitRange(rangeName).0).Success?
            && b.records(b.worksheet(SplitRange(rangeName).0).value).Failure?
            ==> r == Error(b.records(b.worksheet(SplitRange(rangeName).0).value).error)
    ensures !r.Error? ==> r == DataResult(rangeName, b.records(b.worksheet(SplitRange(rangeName).0).value).value)
  {
    var name := if '!' in rangeName then Split(rangeName, '!')[0] else DefaultSheet;
    match b.worksheet(name)
    case Failure(e) => Error(e)
    case Success(ws) =>
      match b.records(ws)
      case Failure(e) => Error(e)
      case Success(data) => DataResult(rangeName, data)
  }

  /** The write `update_cell` makes, when its worksheet is found. */
  function UpdateWrite(b: Backend, rangeName: string, value: string): Option<CellWrite> {
    var (sheet, cell) := SplitRange(rangeName);
    match b.worksheet(sheet)
    case Failure(_) => None
    case Success(ws) => Some(CellWrite(ws.title, cell, [[value]]))
  }

  /** `update_cell`: writes the value as a 1×1 grid to the cell range of the
      worksheet the range names, and reports the range under the
      worksheet's own title; a failed lookup or write is an error record. */
  function UpdateCell(b: Backend, rangeName: string, value: string): (r: CliResult)
    ensures var (sheet, cell) := SplitRange(rangeName);
            && (r.Updated? <==> b.worksheet(sheet).Success? && b.write(UpdateWrite(b, rangeName, value).value).None?)
            && (r.Updated? ==> r == Updated(true, b.worksheet(sheet).value.title + "!" + cell, value))
            && (b.worksheet(sheet).Failure? ==> r == Error(b.worksheet(sheet).error))
            && (b.worksheet(sheet).Success? && b.write(UpdateWrite(b, rangeName, value).value).Some?
                ==> r == Error(b.write(UpdateWrite(b, rangeName, value).value).value))
  {
    var (sheet, cell) := SplitRange(rangeName);
    match b.worksheet(sheet)
    case Failure(e) => Error(e)
    case Success(ws) =>
      match b.write(CellWrite(ws.title, cell, [[value]]))
      case Some(e) => Error(e)
      case None => Updated(true, ws.title + "!" + cell, value)
  }

  /** The write of `update_cell` is always a single cell holding the value. */
  lemma UpdateWriteSingleCell(b: Backend, rangeName: string, value: string)
    ensures var w := UpdateWrite(b, rangeName, value);
            w.Some? ==> |w.value.values| == 1 && w.value.values[0] == [value] && w.value.cellRange == SplitRange(rangeName).1
    ensures UpdateWrite(b, rangeName, value).Some? <==> b.worksheet(SplitRange(rangeName).0).Success?
  {
  }

  /** `create_worksheet`: adds a worksheet of 1000 rows and 26 columns. */
  function CreateWorksheet(b: Backend, title: string): (r: CliResult)
    ensures r.Created? <==> b.add(AddSheet(title, NewRows, NewCols)).Success?
    ensures var w := b.add(AddSheet(title, NewRows, NewCols));
            && (w.Success? ==> r == Created(true, w.value.title, w.value.id))
            && (w.Failure? ==> r == Error(w.error))
  {
    match b.add(AddSheet(title, NewRows, NewCols))
    case Failure(e) => Error(e)
    case Success(ws) => Created(true, ws.title, ws.id)
  }

  /** The listing of worksheets, one entry each, in order. */
  function Entries(ws: seq<Worksheet>): (r: seq<Entry>)
    ensures |r| == |ws|
    ensures forall i :: 0 <= i < |ws| ==>
              r[i] == Entry(ws[i].title, ws[i].id, ws[i].rowCount, ws[i].colCount)
  {
    seq(|ws|, i requires 0 <= i < |ws| => Entry(ws[i].title, ws[i].id, ws[i].rowCount, ws[i].colCount))
  }

  /** The message of the `AttributeError` raised by reading `attr` of the
      spreadsheet before `authenticate` has set it. */
  function NoSpreadsheet(attr: string): string {
    "'NoneType' object has no attribute '" + attr + "'"
  }

  /** What `main` prints for a command when authentication has succeeded, or
      the exit it takes on missing arguments. */
  function Dispatch(b: Backend, command: string, args: seq<string>): (r: Outcome)
    ensures Lower(command) == "info" ==> r == Printed(SpreadsheetInfo(b))
    ensures Lower(command) == "get" && args == [] ==> r == Printed(GetWorksheetData(b, DefaultRange))
    ensures Lower(command) == "get" && args != [] ==> r == Printed(GetWorksheetData(b, args[0]))
    ensures Lower(command) == "update" && |args| >= 2 ==> r == Printed(UpdateCell(b, args[0], args[1]))
    ensures Lower(command) == "update-notes" && |args| >= 2 ==> r == Printed(UpdateCell(b, NotesRange(args[0]), args[1]))
    ensures (Lower(command) == "update" || Lower(command) == "update-notes") && |args| < 2 ==> r == Exit(1)
    ensures Lower(command) == "create" && args == [] ==> r == Exit(1)
    ensures Lower(command) == "create" && args != [] ==> r == Printed(CreateWorksheet(b, args[0]))
    ensures Lower(command) == "list-sheets" ==> r == Printed(ListResult(b))
    ensures r.Exit? ==> r.code == 1
    ensures Lower(command) !in ["info", "get", "update", "update-notes", "create", "list-sheets"] ==>
              r == Printed(Error("Unknown command: " + Lower(command)))
  {
    var c := Lower(command);
    if c == "info" then Printed(SpreadsheetInfo(b))
    else if c == "get" then Printed(GetWorksheetData(b, if args != [] then args[0] else DefaultRange))
    else if c == "update" then
      if |args| < 2 then Exit(1) else Printed(UpdateCell(b, args[0], args[1]))
    else if c == "update-notes" then
      if |args| < 2 then Exit(1) else Printed(UpdateCell(b, NotesRange(args[0]), args[1]))
    else if c == "create" then
      if args == [] then Exit(1) else Printed(CreateWorksheet(b, args[0]))
    else if c == "list-sheets" then Printed(ListResult(b))
    else Printed(Error("Unknown command: " + c))
  }

  /** The `get_spreadsheet_info` dict. */
  function SpreadsheetInfo(b: Backend): (r: CliResult)
    ensures b.worksheets.Failure? ==> r == Error(b.worksheets.error)
    ensures b.worksheets.Success? ==> r == Info(b.title, b.url, Entries(b.worksheets.value))
  {
    match b.worksheets
    case Failure(e) => Error(e)
    case Success(ws) => Info(b.title, b.url, Entries(ws))
  }

  /** The `list_worksheets` dict. */
  function ListResult(b: Backend): (r: CliResult)
    ensures b.worksheets.Failure? ==> r == Error(b.worksheets.error)
    ensures b.worksheets.Success? ==> r == Listed(Entries(b.worksheets.value))
  {
    match b.worksheets
    case Failure(e) => Error(e)
    case Success(ws) => Listed(Entries(ws))
  }

  /** Commands are matched without regard to ASCII case. */
  lemma DispatchIgnoresCase(b: Backend, command: string, args: seq<string>)
    ensures Dispatch(b, command, args) == Dispatch(b, Lower(command), args)
  {
    LowerIdempotent(command);
  }

  class GoogleSheetsCli {
    var spreadsheet: Option<Backend>

    /** No spreadsheet is open before `authenticate`. */
    constructor()
      ensures spreadsheet == None
    {
      spreadsheet := None;
    }

    /** `authenticate`: fails without touching the spreadsheet when the
        service-account JSON is absent or empty, or when parsing it or
        opening the sheet raises; otherwise opens the spreadsheet. */
    method Authenticate(serviceAccountJson: Option<string>, open: string -> Result<Backend, string>)
      returns (ok: bool)
      modifies this
      ensures ok <==> serviceAccountJson.Some? && serviceAccountJson.value != ""
                      && open(serviceAccountJson.value).Success?
      ensures ok ==> spreadsheet == Some(open(serviceAccountJson.value).value)
      ensures !ok ==> spreadsheet == old(spreadsheet)
    {
      if serviceAccountJson.None? || serviceAccountJson.value == "" {
        return false;
      }
      match open(serviceAccountJson.value)
      case Failure(_) =>
        ok := false;
      case Success(b) =>
        spreadsheet := Some(b);
        ok := true;
    }

    /** `get_spreadsheet_info`: the title, the url and one entry per
        worksheet, appended in order. */
    method GetSpreadsheetInfo() returns (r: CliResult)
      ensures spreadsheet.None? ==> r == Error(NoSpreadsheet("title"))
      ensures spreadsheet.Some? ==> r == SpreadsheetInfo(spreadsheet.value)
    {
      if spreadsheet.None? {
        return Error(NoSpreadsheet("title"));
      }
      var b := spreadsheet.value;
      if b.worksheets.Failure? {
        return Error(b.worksheets.error);
      }
      var entries := CollectEntries(b.worksheets.value);
      r := Info(b.title, b.url, entries);
    }

    /** `list_worksheets`: one entry per worksheet, appended in order. */
    method ListWorksheets() returns (r: CliResult)
      ensures spreadsheet.None? ==> r == Error(NoSpreadsheet("worksheets"))
      ensures spreadsheet.Some? ==> r == ListResult(spreadsheet.value)
    {
      if spreadsheet.None? {
        return Error(NoSpreadsheet("worksheets"));
      }
      var b := spreadsheet.value;
      if b.worksheets.Failure? {
        return Error(b.worksheets.error);
      }
      var entries := CollectEntries(b.worksheets.value);
      r := Listed(entries);
    }

    /** The loop shared by `get_spreadsheet_info` and `list_worksheets`. */
    static method CollectEntries(ws: seq<Worksheet>) returns (entries: seq<Entry>)
      ensures entries == Entries(ws)
    {
      entries := [];
      var i := 0;
      while i < |ws|
        invariant 0 <= i <= |ws|
        invariant entries == Entries(ws[..i])
      {
        var worksheet := ws[i];
        entries := entries + [Entry(worksheet.title, worksheet.id, worksheet.rowCount, worksheet.colCount)];
        i := i + 1;
      }
      assert ws[..i] == ws;
    }
  }

  /** `main`: authenticates, exiting with 1 on failure, then runs the
      command. */
  method RunCli(command: string, args: seq<string>, serviceAccountJson: Option<string>,
              open: string -> Result<Backend, string>)
    returns (outcome: Outcome)
    ensures serviceAccountJson.None? || serviceAccountJson.value == "" ==> outcome == Exit(1)
    ensures serviceAccountJson.Some? && serviceAccountJson.value != "" ==>
              match open(serviceAccountJson.value)
              case Failure(_) => outcome == Exit(1)
              case Success(b) => outcome == Dispatch(b, command, args)
  {
    var cli := new GoogleSheetsCli();
    var ok := cli.Authenticate(serviceAccountJson, open);
    if !ok {
      return Exit(1);
    }
    var b := cli.spreadsheet.value;
    var c := Lower(command);
    if c == "info" {
      var r := cli.GetSpreadsheetInfo();
      outcome := Printed(r);
    } else if c == "list-sheets" {
      var r := cli.ListWorksheets();
      outcome := Printed(r);
    } else {
      outcome := Dispatch(b, command, args);
    }
  }
}
