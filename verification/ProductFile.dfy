/**
 * The product file as uploaded: its text, its header and its rows (src/platform/files/csv-file.ts and
 * src/modules/catalog/presentation/product-file.ts).
 */
module ProductFile {
  import Csv
  import opened ProductRows
  import opened Variants
  import opened Wrappers

  const MAX_PRODUCT_IMPORT_ROWS: nat := 5000
  const OPTION_COLUMN_PREFIX: string := "option:"

  const REQUIRED_PRODUCT_COLUMNS: seq<string> := ["slug", "title", "sku"]
  const OPTIONAL_PRODUCT_COLUMNS: seq<string> :=
    ["description", "brand", "categories", "gtin", "weightGrams", "lengthCm", "widthCm", "heightCm", "storeOnly"]
  const NAMED: seq<string> := REQUIRED_PRODUCT_COLUMNS + OPTIONAL_PRODUCT_COLUMNS

  datatype FileError = MalformedFile | EmptyFile | BadColumns | TooManyRows

  /** What a cell of the header stands for: a known column, or one for an option. */
  datatype Column = Named(name: string) | OptionOf(name: string)

  // ---- The header ----

  /** The known column with this name in lowercase. */
  function Known(lower: string, names: seq<string>): (name: Option<string>)
    ensures name.Some? ==> name.value in names && Lower(name.value) == lower
    ensures name.None? ==> forall n | n in names :: Lower(n) != lower
  {
    if names == [] then None
    else if Lower(names[0]) == lower then Some(names[0])
    else Known(lower, names[1..])
  }

  function AfterPrefix(lower: string): string
    requires OPTION_COLUMN_PREFIX <= lower
  {
    Trim(lower[|OPTION_COLUMN_PREFIX|..])
  }

  /** Which column a cell of the header names, whatever its case and the spaces around it. */
  function ColumnOf(raw: string): Option<Column> {
    var lower := Lower(Trim(raw));
    var known := Known(lower, NAMED);
    if known.Some? then Some(Named(known.value))
    else if OPTION_COLUMN_PREFIX <= lower && AfterPrefix(lower) != "" then Some(OptionOf(AfterPrefix(lower)))
    else None
  }

  predicate AllColumns(header: seq<string>) { forall i | 0 <= i < |header| :: ColumnOf(header[i]).Some? }

  function Columns(header: seq<string>): (columns: seq<Column>)
    requires AllColumns(header)
    ensures |columns| == |header|
    ensures forall i | 0 <= i < |header| :: Some(columns[i]) == ColumnOf(header[i])
  {
    seq(|header|, i requires 0 <= i < |header| => ColumnOf(header[i]).value)
  }

  predicate Distinct(columns: seq<Column>) { forall i, j | 0 <= i < j < |columns| :: columns[i] != columns[j] }

  /** Every cell names a column, none twice, and the required ones are among them. */
  predicate GoodHeader(header: seq<string>) {
    && AllColumns(header) && Distinct(Columns(header))
    && forall name | name in REQUIRED_PRODUCT_COLUMNS :: Named(name) in Columns(header)
  }

  method ColumnsOf(header: seq<string>) returns (r: Result<seq<Column>, FileError>)
    ensures r == if GoodHeader(header) then Ok(Columns(header)) else Err(BadColumns)
  {
    var columns: seq<Column> := [];
    var seen: set<Column> := {};
    for i := 0 to |header|
      invariant AllColumns(header[..i]) && columns == Columns(header[..i]) && Distinct(columns)
      invariant forall c :: c in seen <==> c in columns
    {
      var column := ColumnOf(header[i]);
      assert header[..i + 1] == header[..i] + [header[i]];
      if column.None? {
        return Err(BadColumns);
      }
      if column.value in seen {
        var j :| 0 <= j < i && columns[j] == column.value;
        assert AllColumns(header) ==> Columns(header)[j] == Columns(header)[i];
        return Err(BadColumns);
      }
      columns := columns + [column.value];
      seen := seen + {column.value};
    }
    assert header[..|header|] == header;
    if exists name | name in REQUIRED_PRODUCT_COLUMNS :: Named(name) !in seen {
      return Err(BadColumns);
    }
    return Ok(columns);
  }

  // ---- The cells of a row ----

  /** The trimmed cell in a column; none is the same as an empty one. */
  function FieldAt(fields: seq<string>, position: nat): string {
    if position < |fields| then Trim(fields[position]) else ""
  }

  /** The cell of a known column; without the column it is empty. */
  function CellOf(columns: seq<Column>, fields: seq<string>, name: string): string {
    if columns == [] then ""
    else
      var last := |columns| - 1;
      if columns[last] == Named(name) then FieldAt(fields, last) else CellOf(columns[..last], fields, name)
  }

  /** The cells of the options in the order of the header; one named `__proto__` is lost. */
  function OptionsOf(columns: seq<Column>, fields: seq<string>): seq<OptionCell> {
    if columns == [] then []
    else
      var last := |columns| - 1;
      var before := OptionsOf(columns[..last], fields);
      match columns[last]
      case OptionOf(name) => if name == "__proto__" then before else before + [(name, FieldAt(fields, last))]
      case Named(_) => before
  }

  function RowOf(columns: seq<Column>, record: Csv.Record): Row {
    var cell := name => CellOf(columns, record.fields, name);
    Row(record.line, |record.fields| == |columns|, cell("slug"), cell("title"), cell("description"), cell("brand"),
        cell("categories"), cell("sku"), cell("gtin"), cell("weightGrams"), cell("lengthCm"), cell("widthCm"),
        cell("heightCm"), cell("storeOnly"), OptionsOf(columns, record.fields))
  }

  /** The cells under the known columns, by their names, and those of the options. */
  method ReadCells(columns: seq<Column>, fields: seq<string>, names: seq<string>)
    returns (cells: map<string, string>, options: seq<OptionCell>)
    requires Distinct(columns) && forall i | 0 <= i < |columns| && columns[i].Named? :: columns[i].name in names
    ensures forall name | name in names :: name in cells && cells[name] == CellOf(columns, fields, name)
    ensures options == OptionsOf(columns, fields)
  {
    cells := map name | name in names :: "";
    options := [];
    for position := 0 to |columns|
      invariant forall name | name in names :: name in cells && cells[name] == CellOf(columns[..position], fields, name)
      invariant options == OptionsOf(columns[..position], fields)
    {
      assert columns[..position + 1][..position] == columns[..position];
      var cell := if position < |fields| then Trim(fields[position]) else "";
      match columns[position] {
        case OptionOf(name) => if name != "__proto__" { options := options + [(name, cell)]; }
        case Named(name) => cells := cells[name := cell];
      }
    }
    assert columns[..|columns|] == columns;
  }

  method ReadRow(columns: seq<Column>, record: Csv.Record) returns (row: Row)
    requires Distinct(columns) && forall i | 0 <= i < |columns| && columns[i].Named? :: columns[i].name in NAMED
    ensures row == RowOf(columns, record)
  {
    var cells, options := ReadCells(columns, record.fields, NAMED);
    assert NAMED[0] == "slug" && NAMED[1] == "title" && NAMED[2] == "sku" && NAMED[3] == "description";
    assert NAMED[4] == "brand" && NAMED[5] == "categories" && NAMED[6] == "gtin" && NAMED[7] == "weightGrams";
    assert NAMED[8] == "lengthCm" && NAMED[9] == "widthCm" && NAMED[10] == "heightCm" && NAMED[11] == "storeOnly";
    row := Row(record.line, |record.fields| == |columns|, cells["slug"], cells["title"], cells["description"],
               cells["brand"], cells["categories"], cells["sku"], cells["gtin"], cells["weightGrams"],
               cells["lengthCm"], cells["widthCm"], cells["heightCm"], cells["storeOnly"], options);
  }

  /** Wherever its column is, a known cell is the one under it, and every cell is trimmed. */
  lemma {:induction false} CellIsUnderItsColumn(columns: seq<Column>, fields: seq<string>, name: string)
    requires Distinct(columns)
    ensures Trimmed(CellOf(columns, fields, name))
    ensures Named(name) !in columns ==> CellOf(columns, fields, name) == ""
    ensures forall i | 0 <= i < |columns| && columns[i] == Named(name) ::
              CellOf(columns, fields, name) == FieldAt(fields, i)
  {
    if columns == [] {
    } else {
      var last := |columns| - 1;
      CellIsUnderItsColumn(columns[..last], fields, name);
      FieldIsTrimmed(fields, last);
    }
  }

  lemma {:induction false} FieldIsTrimmed(fields: seq<string>, position: nat)
    ensures Trimmed(FieldAt(fields, position))
  {
    if position < |fields| {
      TrimsOnce(fields[position]);
    }
  }

  /** The cells of the options are those under their columns, each once. */
  lemma {:induction false} OptionsAreUnderTheirColumns(columns: seq<Column>, fields: seq<string>)
    requires Distinct(columns)
    ensures var options := OptionsOf(columns, fields);
      && (forall cell :: cell in options <==>
            exists i | 0 <= i < |columns| ::
              columns[i] == OptionOf(cell.0) && cell.0 != "__proto__" && cell.1 == FieldAt(fields, i))
      && (forall i, j | 0 <= i < j < |options| :: options[i].0 != options[j].0)
  {
    if columns == [] {
    } else {
      var last := |columns| - 1;
      var front := columns[..last];
      var before, options := OptionsOf(front, fields), OptionsOf(columns, fields);
      OptionsAreUnderTheirColumns(front, fields);
      forall i | 0 <= i < |before| ensures OptionOf(before[i].0) != columns[last] {
        assert before[i] in before;
      }
    }
  }

  /** Some column has this cell under it. */
  predicate Under(columns: seq<Column>, fields: seq<string>, column: Column, cell: string) {
    exists i | 0 <= i < |columns| :: columns[i] == column && FieldAt(fields, i) == cell
  }

  /** The same cells under the same columns are the same row, in whatever order the columns are. */
  lemma {:induction false} AnyOrderReadsTheSame(
    columns: seq<Column>, fields: seq<string>, moved: seq<Column>, movedFields: seq<string>, name: string)
    requires Distinct(columns) && Distinct(moved)
    requires forall column, cell :: Under(columns, fields, column, cell) <==> Under(moved, movedFields, column, cell)
    ensures CellOf(columns, fields, name) == CellOf(moved, movedFields, name)
    ensures forall cell :: cell in OptionsOf(columns, fields) <==> cell in OptionsOf(moved, movedFields)
  {
    CellIsUnderItsColumn(columns, fields, name);
    CellIsUnderItsColumn(moved, movedFields, name);
    OptionsAreUnderTheirColumns(columns, fields);
    OptionsAreUnderTheirColumns(moved, movedFields);
    if Named(name) in columns {
      var i :| 0 <= i < |columns| && columns[i] == Named(name);
      assert Under(columns, fields, Named(name), FieldAt(fields, i));
    } else if Named(name) in moved {
      var i :| 0 <= i < |moved| && moved[i] == Named(name);
      assert Under(moved, movedFields, Named(name), FieldAt(movedFields, i));
    }
    forall cell: OptionCell
      ensures cell in OptionsOf(columns, fields) <==>
                cell.0 != "__proto__" && Under(columns, fields, OptionOf(cell.0), cell.1)
      ensures cell in OptionsOf(moved, movedFields) <==>
                cell.0 != "__proto__" && Under(moved, movedFields, OptionOf(cell.0), cell.1)
    {
    }
  }

  // ---- The file ----

  /** The name of an option that is too long. */
  predicate LongOption(column: Column) { column.OptionOf? && |column.name| > MAX_OPTION_NAME_LENGTH }

  function RowsOf(columns: seq<Column>, records: seq<Csv.Record>): (rows: seq<Row>)
    ensures |rows| == |records|
    ensures forall i | 0 <= i < |records| :: rows[i] == RowOf(columns, records[i])
  {
    seq(|records|, i requires 0 <= i < |records| => RowOf(columns, records[i]))
  }

  /** The rows of a text after its header, or the first complaint about it. */
  function FileOf(text: string): Result<seq<Row>, FileError> {
    match Csv.Parse(text)
    case Err(_) => Err(MalformedFile)
    case Ok(records) =>
      if records == [] then Err(EmptyFile)
      else if !GoodHeader(records[0].fields) then Err(BadColumns)
      else if |records| == 1 then Err(EmptyFile)
      else if |records| - 1 > MAX_PRODUCT_IMPORT_ROWS then Err(TooManyRows)
      else
        var columns := Columns(records[0].fields);
        if exists c | c in columns :: LongOption(c) then Err(BadColumns) else Ok(RowsOf(columns, records[1..]))
  }

  method ReadProductFile(text: string) returns (r: Result<seq<Row>, FileError>)
    ensures r == FileOf(text)
  {
    var parsed := Csv.ParseCsv(text);
    if parsed.Err? { return Err(MalformedFile); }
    var records := parsed.value;
    if records == [] { return Err(EmptyFile); }
    var header := ColumnsOf(records[0].fields);
    if header.Err? { return Err(BadColumns); }
    var columns := header.value;
    if |records| == 1 { return Err(EmptyFile); }
    if |records| - 1 > MAX_PRODUCT_IMPORT_ROWS { return Err(TooManyRows); }
    ColumnsAreKnown(records[0].fields);
    var rows := ReadRows(columns, records[1..]);
    if exists c | c in columns :: LongOption(c) { return Err(BadColumns); }
    return Ok(rows);
  }

  method ReadRows(columns: seq<Column>, records: seq<Csv.Record>) returns (rows: seq<Row>)
    requires Distinct(columns) && forall i | 0 <= i < |columns| && columns[i].Named? :: columns[i].name in NAMED
    ensures rows == RowsOf(columns, records)
  {
    rows := [];
    for i := 0 to |records|
      invariant |rows| == i && forall j | 0 <= j < i :: rows[j] == RowOf(columns, records[j])
    {
      var row := ReadRow(columns, records[i]);
      rows := rows + [row];
    }
  }

  lemma {:induction false} ColumnsAreKnown(header: seq<string>)
    requires AllColumns(header)
    ensures forall i | 0 <= i < |header| && Columns(header)[i].Named? :: Columns(header)[i].name in NAMED
  {
    forall i | 0 <= i < |header| && Columns(header)[i].Named? ensures Columns(header)[i].name in NAMED {
      assert ColumnOf(header[i]).Some?;
    }
  }

  predicate AllLower(s: string) { forall i | 0 <= i < |s| :: LowerChar(s[i]) == s[i] }

  lemma {:induction false} TrimStartKeepsLower(s: string)
    requires AllLower(s)
    ensures AllLower(TrimStart(s))
  {
    if s == "" {
    } else {
      TrimStartKeepsLower(s[1..]);
    }
  }

  lemma {:induction false} TrimEndKeepsLower(s: string)
    requires AllLower(s)
    ensures AllLower(TrimEnd(s))
  {
    if s == "" {
    } else {
      TrimEndKeepsLower(s[..|s| - 1]);
    }
  }

  /** The name of an option column is trimmed, in lowercase and not empty. */
  lemma {:induction false} OptionIsNamed(raw: string)
    requires ColumnOf(raw).Some? && ColumnOf(raw).value.OptionOf?
    ensures var name := ColumnOf(raw).value.name;
            name != "" && Trimmed(name) && Lower(name) == name
  {
    var rest := Lower(Trim(raw))[|OPTION_COLUMN_PREFIX|..];
    TrimsOnce(rest);
    TrimStartKeepsLower(rest);
    TrimEndKeepsLower(TrimStart(rest));
  }

  lemma {:induction false} RowIsAsRead(header: seq<string>, record: Csv.Record)
    requires GoodHeader(header) && forall c | c in Columns(header) :: !LongOption(c)
    ensures AsRead(RowOf(Columns(header), record))
  {
    var columns, fields := Columns(header), record.fields;
    var options := OptionsOf(columns, fields);
    CellIsUnderItsColumn(columns, fields, "title");
    CellIsUnderItsColumn(columns, fields, "sku");
    OptionsAreUnderTheirColumns(columns, fields);
    forall k | 0 <= k < |options| ensures OptionColumn(options[k].0) && Trimmed(options[k].1) {
      assert options[k] in options;
      var i :| 0 <= i < |columns| && columns[i] == OptionOf(options[k].0) && options[k].0 != "__proto__"
               && options[k].1 == FieldAt(fields, i);
      assert columns[i] in columns && ColumnOf(header[i]) == Some(columns[i]);
      OptionIsNamed(header[i]);
      FieldIsTrimmed(fields, i);
    }
  }

  /** Whatever text is read, its rows are as the import takes them, each of a later line than the ones before. */
  lemma {:induction false} FileIsRead(text: string)
    requires FileOf(text).Ok?
    ensures FileRead(FileOf(text).value) && 1 <= |FileOf(text).value| <= MAX_PRODUCT_IMPORT_ROWS
  {
    var records, rows := Csv.Parse(text).value, FileOf(text).value;
    Csv.RecordsAscend(text);
    forall i | 0 <= i < |rows| ensures AsRead(rows[i]) && rows[i].line == records[i + 1].line {
      RowIsAsRead(records[0].fields, records[i + 1]);
    }
  }
}
