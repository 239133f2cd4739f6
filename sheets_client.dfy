/** The TypeScript `GoogleSheetsClient` (src/lib/sheets-client.ts): the
    conversion of a value grid into header-keyed records, and the shaping of
    the requests and responses around the Sheets API. Each API call is
    replaced by the response it returns, passed in as a parameter, or by the
    request it sends, returned as a value. */
module SheetsClient {
  import opened Wrappers
  import opened Text
  import opened Seqs

  /** A grid of cells as `values.get` returns it: a list of rows, each as
      long as its last non-empty cell. */
  type Grid = seq<seq<string>>

  /** A `RowData` object: header name to cell. */
  type Row = map<string, string>

  /** `valueInputOption: 'RAW'`: the values are stored as given, not parsed. */
  const Raw := "RAW"

  /** The body of a `values.update` call. */
  datatype ValuesUpdate = ValuesUpdate(spreadsheetId: string, range: string, valueInputOption: string, values: Grid)

  /** The `properties` of one sheet in a `spreadsheets.get` response. */
  datatype SheetProperties = SheetProperties(sheetId: int, title: string, index: int)

  /** The fields of a `spreadsheets.get` response that are read. `properties`
      and `sheets` may be absent. */
  datatype SpreadsheetData = SpreadsheetData(spreadsheetId: string, properties: Option<string>, spreadsheetUrl: string,
                                             sheets: Option<seq<SheetProperties>>)

  /** `SpreadsheetInfo`. */
  datatype SpreadsheetInfo = SpreadsheetInfo(spreadsheetId: string, title: string, url: string,
                                             sheets: seq<SheetProperties>)

  /** One entry of `listWorksheets`. */
  datatype Worksheet = Worksheet(title: string, sheetId: int)

  /** What reading `data.properties!.title!` throws when `properties` is
      absent. */
  const MissingProperties := "TypeError: Cannot read properties of undefined (reading 'title')"

  // ---------------------------------------------------------------------------
  // Grid to records

  /** How many cells of a row are read: those under a header. */
  function Width(headers: seq<string>, cells: seq<string>): nat {
    Min(|headers|, |cells|)
  }

  /** The record after the first `n` turns of the inner loop: each turn sets
      the key of column `j` to the row's cell, overwriting an earlier column
      of the same name. */
  function RowOf(headers: seq<string>, cells: seq<string>, n: nat): Row
    requires n <= Width(headers, cells)
  {
    if n == 0 then map[] else RowOf(headers, cells, n - 1)[headers[n - 1] := cells[n - 1]]
  }

  /** The record of one data row. */
  function Record(headers: seq<string>, cells: seq<string>): Row {
    RowOf(headers, cells, Width(headers, cells))
  }

  /** What `getWorksheetData` returns for a response's `values`: no records
      for an absent or empty grid, otherwise one record per row after the
      header row, in order. */
  function Records(values: Option<Grid>): (r: seq<Row>)
    ensures values.None? || values.value == [] ==> r == []
    ensures values.Some? && values.value != [] ==>
              |r| == |values.value| - 1
              && forall i :: 0 <= i < |r| ==> r[i] == Record(values.value[0], values.value[i + 1])
  {
    if values.None? || values.value == [] then []
    else seq(|values.value| - 1, i requires 0 <= i < |values.value| - 1 => Record(values.value[0], values.value[i + 1]))
  }

  /** A record has a key for exactly the header names of the columns it
      reads: cells past the last header are dropped, and a row shorter than
      the header leaves the remaining names absent rather than empty. */
  lemma {:induction false} RowKeys(headers: seq<string>, cells: seq<string>, n: nat, k: string)
    requires n <= Width(headers, cells)
    ensures k in RowOf(headers, cells, n) <==> exists j :: 0 <= j < n && headers[j] == k
  {
    if n > 0 {
      RowKeys(headers, cells, n - 1, k);
      if k == headers[n - 1] {
        assert 0 <= n - 1 < n && headers[n - 1] == k;
      } else if exists j :: 0 <= j < n && headers[j] == k {
        var j :| 0 <= j < n && headers[j] == k;
        assert 0 <= j < n - 1;
      }
    }
  }

  /** When a header name repeats, the value is the cell of the last column of
      that name. */
  lemma {:induction false} RowLastWins(headers: seq<string>, cells: seq<string>, n: nat, j: nat)
    requires n <= Width(headers, cells) && j < n
    requires forall l :: j < l < n ==> headers[l] != headers[j]
    ensures headers[j] in RowOf(headers, cells, n) && RowOf(headers, cells, n)[headers[j]] == cells[j]
  {
    if j < n - 1 {
      RowLastWins(headers, cells, n - 1, j);
    }
  }

  /** With distinct header names every cell under a header is kept under its
      own name, and the record has as many keys as cells are read. */
  lemma RecordDistinct(headers: seq<string>, cells: seq<string>)
    requires NoDups(headers)
    ensures forall j :: 0 <= j < Width(headers, cells) ==>
              headers[j] in Record(headers, cells) && Record(headers, cells)[headers[j]] == cells[j]
    ensures |Record(headers, cells).Keys| == Width(headers, cells)
  {
    var w := Width(headers, cells);
    forall j | 0 <= j < w
      ensures headers[j] in Record(headers, cells) && Record(headers, cells)[headers[j]] == cells[j]
    {
      RowLastWins(headers, cells, w, j);
    }
    RowCard(headers, cells, w);
  }

  /** Distinct header names give one key per column read. */
  lemma {:induction false} RowCard(headers: seq<string>, cells: seq<string>, n: nat)
    requires n <= Width(headers, cells) && NoDups(headers)
    ensures |RowOf(headers, cells, n).Keys| == n
  {
    if n > 0 {
      RowCard(headers, cells, n - 1);
      RowKeys(headers, cells, n - 1, headers[n - 1]);
      assert headers[n - 1] !in RowOf(headers, cells, n - 1);
      assert RowOf(headers, cells, n).Keys == RowOf(headers, cells, n - 1).Keys + {headers[n - 1]};
    }
  }

  /** The records of a grid depend only on the cells under the header:
      trimming every data row to the header width changes nothing. */
  lemma RecordTrim(headers: seq<string>, cells: seq<string>)
    ensures Record(headers, cells) == Record(headers, cells[..Width(headers, cells)])
  {
    RowPrefix(headers, cells, cells[..Width(headers, cells)], Width(headers, cells));
  }

  lemma {:induction false} RowPrefix(headers: seq<string>, cells: seq<string>, trimmed: seq<string>, n: nat)
    requires n <= Width(headers, cells) && n <= Width(headers, trimmed)
    requires forall j :: 0 <= j < n ==> cells[j] == trimmed[j]
    ensures RowOf(headers, cells, n) == RowOf(headers, trimmed, n)
  {
    if n > 0 {
      RowPrefix(headers, cells, trimmed, n - 1);
    }
  }

  /** The `.map` over the sheets of `listWorksheets`. */
  function Worksheets(sheets: seq<SheetProperties>): (r: seq<Worksheet>)
    ensures |r| == |sheets|
    ensures forall i :: 0 <= i < |r| ==> r[i].title == sheets[i].title && r[i].sheetId == sheets[i].sheetId
  {
    seq(|sheets|, i requires 0 <= i < |sheets| => Worksheet(sheets[i].title, sheets[i].sheetId))
  }

  /** The info of a response, or the error of reading the title of absent
      properties. Absent sheets are read as none. */
  function Info(data: SpreadsheetData): (r: Result<SpreadsheetInfo, string>)
    ensures r.Success? <==> data.properties.Some?
    ensures r.Success? ==> r.value.spreadsheetId == data.spreadsheetId && r.value.title == data.properties.value
                           && r.value.url == data.spreadsheetUrl && r.value.sheets == data.sheets.GetOr([])
  {
    match data.properties
    case None => Failure(MissingProperties)
    case Some(title) => Success(SpreadsheetInfo(data.spreadsheetId, title, data.spreadsheetUrl, data.sheets.GetOr([])))
  }

  class GoogleSheetsClient {
    const spreadsheetId: string

    /** Authentication is not modelled; the client only keeps the id of the
        spreadsheet it talks to. */
    constructor(spreadsheetId: string)
      ensures this.spreadsheetId == spreadsheetId
    {
      this.spreadsheetId := spreadsheetId;
    }

    /** `getSpreadsheetInfo`, given the `spreadsheets.get` response. */
    method GetSpreadsheetInfo(data: SpreadsheetData) returns (r: Result<SpreadsheetInfo, string>)
      ensures r == Info(data)
    {
      if data.properties.None? {
        return Failure(MissingProperties);
      }
      var sheets := if data.sheets.Some? then data.sheets.value else [];
      r := Success(SpreadsheetInfo(data.spreadsheetId, data.properties.value, data.spreadsheetUrl, sheets));
    }

    /** `getWorksheetData`, given the `values` of the `values.get` response:
        the header row names the keys of every later row. */
    method GetWorksheetData(values: Option<Grid>) returns (rows: seq<Row>)
      ensures rows == Records(values)
    {
      if values.None? || |values.value| == 0 {
        return [];
      }
      var grid := values.value;
      var headers := grid[0];
      rows := [];
      var i := 1;
      while i < |grid|
        invariant 1 <= i <= |grid|
        invariant |rows| == i - 1
        invariant forall l :: 0 <= l < i - 1 ==> rows[l] == Record(headers, grid[l + 1])
      {
        var row: Row := map[];
        var j := 0;
        while j < |headers| && j < |grid[i]|
          invariant 0 <= j <= Width(headers, grid[i])
          invariant row == RowOf(headers, grid[i], j)
        {
          row := row[headers[j] := grid[i][j]];
          j := j + 1;
        }
        rows := rows + [row];
        i := i + 1;
      }
    }

    /** `getRangeValues`: the grid as returned, or none when absent. */
    method GetRangeValues(values: Option<Grid>) returns (grid: Grid)
      ensures values.Some? ==> grid == values.value
      ensures values.None? ==> grid == []
      ensures Records(Some(grid)) == Records(values)
    {
      grid := if values.Some? then values.value else [];
    }

    /** `updateCell`: the update it sends writes the single value as a 1×1
        grid, unparsed, to this spreadsheet. */
    method UpdateCell(rangeName: string, value: string) returns (request: ValuesUpdate)
      ensures request.spreadsheetId == spreadsheetId && request.range == rangeName
      ensures request.valueInputOption == Raw
      ensures |request.values| == 1 && |request.values[0]| == 1 && request.values[0][0] == value
    {
      request := ValuesUpdate(spreadsheetId, rangeName, Raw, [[value]]);
    }

    /** `listWorksheets`, given the `spreadsheets.get` response it reads
        through `getSpreadsheetInfo`. */
    method ListWorksheets(data: SpreadsheetData) returns (r: Result<seq<Worksheet>, string>)
      ensures r.Success? <==> Info(data).Success?
      ensures r.Success? ==> r.value == Worksheets(Info(data).value.sheets)
      ensures r.Failure? ==> r.error == Info(data).error == MissingProperties
    {
      var info := GetSpreadsheetInfo(data);
      if info.Failure? {
        return Failure(info.error);
      }
      r := Success(Worksheets(info.value.sheets));
    }
  }
}
