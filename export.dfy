/// `extract_business_data` of main.py: the eight columns it needs must all be
/// in the CSV; `Phones` is cut to its first comma-separated entry, and each
/// row becomes one record holding exactly those eight columns. Reading the
/// CSV and writing the JSON file are not part of this model.
module Export {
  import opened Common
  import opened Table

  /** The columns main.py:10 requires and keeps, in this order. */
  const ExportColumns: seq<string> := ["Name", "Description", "Fulladdress", "Phone", "Phones", "Featured Image", "Latitude", "Longitude"]

  lemma ExportColumnsDistinct()
    ensures NoDup(ExportColumns) && "Phones" in ExportColumns
  {
    forall i, j | 0 <= i < j < |ExportColumns| ensures ExportColumns[i] != ExportColumns[j] {
      assert i == 0 || i == 1 || i == 2 || i == 3 || i == 4 || i == 5 || i == 6;
    }
  }

  /** `set(selected_columns) - set(df.columns)`: the required columns the CSV lacks. */
  function MissingColumns(columns: seq<string>): (missing: set<string>)
    ensures missing == {} <==> forall c :: c in ExportColumns ==> c in columns
    ensures forall c :: c in missing ==> c in ExportColumns && c !in columns
  {
    var missing := set c | c in ExportColumns && c !in columns;
    assert forall c :: c in ExportColumns && c !in columns ==> c in missing;
    missing
  }

  /** The first part of a split is a prefix of the string, ended by the separator or by the string's end. */
  lemma {:induction false} FirstPartPrefix(s: string, sep: char)
    ensures var r := Split(s, sep)[0];
      r <= s && (|r| < |s| ==> s[|r|] == sep)
  {
    if s != [] {
      FirstPartPrefix(s[1..], sep);
      if s[0] != sep {
        var rest := Split(s[1..], sep);
        assert Split(s, sep)[0] == [s[0]] + rest[0];
      }
    }
  }

  /** `x.split(",")[0]`: the text before the first comma, or all of `x` when it has none. */
  function FirstEntry(x: string): (r: string)
    ensures ',' !in r && r <= x
    ensures |r| < |x| ==> x[|r|] == ','
  {
    FirstPartPrefix(x, ',');
    Split(x, ',')[0]
  }

  /**
   * main.py:20 as written: `astype(str)` has already turned a missing cell
   * into the text `"nan"` when `pd.notna(x)` is asked, so the guard always
   * holds and the `""` branch is never taken.
   */
  function PhonesAsWritten(c: Cell): (r: Cell)
    ensures r.Text? && ',' !in r.text
  {
    Text(FirstEntry(CellStr(c)))
  }

  /** A row with no `Phones` value leaves `"nan"` in the record. */
  lemma MissingPhonesAsWritten()
    ensures PhonesAsWritten(NaN) == Text("nan")
  {
    SplitNoSep("nan", ',');
  }

  /** main.py:20 as its guard intends: a missing `Phones` value gives `""`, any other its first entry. */
  function PhonesCell(c: Cell): (r: Cell)
    ensures r.Text? && ',' !in r.text
    ensures c.NaN? ==> r == Text("")
    ensures !c.NaN? ==> r == PhonesAsWritten(c)
  {
    if c.NaN? then Text("") else Text(FirstEntry(CellStr(c)))
  }

  /** A present phone list gives the text before its first comma. */
  lemma PhonesOfList(first: string, rest: string)
    requires ',' !in first
    ensures PhonesAsWritten(Text(first + "," + rest)) == Text(first)
  {
    assert first + "," + rest == first + [','] + rest;
    SplitAround(first, rest, ',');
  }

  /** Unlike extractor.py and extractor2.py, main.py keeps the blanks of the first entry. */
  lemma BlanksKept()
    ensures PhonesAsWritten(Text("0 1,2")) == Text("0 1")
  {
    PhonesOfList("0 1", "2");
  }

  /** `df.to_dict(orient="records")`: one record per row, in row order, keyed by the frame's columns. */
  function Records(cells: map<string, seq<Cell>>, height: nat): (records: seq<map<string, Cell>>)
    requires forall c :: c in cells ==> |cells[c]| == height
    ensures |records| == height
    ensures forall i :: 0 <= i < height ==> records[i].Keys == cells.Keys
    ensures forall i, c :: 0 <= i < height && c in cells ==> records[i][c] == cells[c][i]
  {
    seq(height, i requires 0 <= i < height => map c | c in cells :: cells[c][i])
  }

  /**
   * The body of `extract_business_data`, with `phones` as the rule applied to
   * each `Phones` cell: a CSV lacking any required column raises naming
   * exactly the missing ones; otherwise there is one record per row, in
   * order, each with exactly the eight required columns, the row's own cells
   * and its `Phones` cell mapped by `phones`.
   */
  method ExtractWith(df: Frame, phones: Cell -> Cell) returns (r: Result<seq<map<string, Cell>>, set<string>>)
    requires df.Valid()
    ensures r.Err? <==> exists c :: c in ExportColumns && c !in df.columns
    ensures r.Err? ==> r.error == MissingColumns(df.columns)
    ensures r.Ok? ==> |r.value| == df.height
    ensures r.Ok? ==> forall i :: 0 <= i < df.height ==>
              (forall c :: c in r.value[i] <==> c in ExportColumns)
              && (forall c :: c in ExportColumns && c != "Phones" ==> r.value[i][c] == df.cells[c][i])
              && r.value[i]["Phones"] == phones(df.cells["Phones"][i])
  {
    var missing := MissingColumns(df.columns);
    if missing != {} {
      return Err(missing);
    }
    ExportColumnsDistinct();
    var sel := df.Select(ExportColumns);
    sel.MapColumn("Phones", phones);
    r := Ok(Records(sel.cells, sel.height));
  }

  /**
   * `extract_business_data` of main.py as written: each record's `Phones` is
   * the first entry of the cell's text, so a missing cell gives `"nan"`.
   */
  method ExtractBusinessData(df: Frame) returns (r: Result<seq<map<string, Cell>>, set<string>>)
    requires df.Valid()
    ensures r.Err? <==> exists c :: c in ExportColumns && c !in df.columns
    ensures r.Err? ==> r.error == MissingColumns(df.columns)
    ensures r.Ok? ==> |r.value| == df.height
    ensures r.Ok? ==> forall i :: 0 <= i < df.height ==>
              (forall c :: c in r.value[i] <==> c in ExportColumns)
              && (forall c :: c in ExportColumns && c != "Phones" ==> r.value[i][c] == df.cells[c][i])
              && r.value[i]["Phones"] == PhonesAsWritten(df.cells["Phones"][i])
  {
    r := ExtractWith(df, PhonesAsWritten);
  }

  /**
   * `extract_business_data` as its `pd.notna` guard intends: the same
   * records, except that a missing `Phones` cell gives `""`.
   */
  method ExtractBusinessDataIntended(df: Frame) returns (r: Result<seq<map<string, Cell>>, set<string>>)
    requires df.Valid()
    ensures r.Err? <==> exists c :: c in ExportColumns && c !in df.columns
    ensures r.Err? ==> r.error == MissingColumns(df.columns)
    ensures r.Ok? ==> |r.value| == df.height
    ensures r.Ok? ==> forall i :: 0 <= i < df.height ==>
              (forall c :: c in r.value[i] <==> c in ExportColumns)
              && (forall c :: c in ExportColumns && c != "Phones" ==> r.value[i][c] == df.cells[c][i])
              && r.value[i]["Phones"] == PhonesCell(df.cells["Phones"][i])
  {
    r := ExtractWith(df, PhonesCell);
  }
}
