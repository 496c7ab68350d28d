/// The pandas side of `extract_business_data` (extractor2.py:89-103,
/// extractor.py:11-27): a frame read from the CSV gets every selected column
/// it lacks as a column of empty strings, is cut down to the selected
/// columns, has its missing cells filled with `""`, and has its phone
/// columns rewritten cell by cell.
///
/// A frame is a class whose fields the source updates in place
/// (`df[col] = ...`): its column order, the cells of each column, and the
/// number of rows.
module Table {
  import opened Common

  /**
   * A cell as pandas holds it: a string, a missing value (`NaN`), or some
   * other value (a number read from the CSV), kept as the text `str()` gives.
   */
  datatype Cell = Text(text: string) | NaN | Value(str: string)

  /** `str(cell)`, as `astype(str)` renders it: a missing value becomes `"nan"`. */
  function CellStr(c: Cell): (r: string)
    ensures c.Text? ==> r == c.text
    ensures c.NaN? ==> r == "nan"
  {
    match c
    case Text(t) => t
    case NaN => "nan"
    case Value(s) => s
  }

  /** `fillna("")` on one cell. */
  function FillCell(c: Cell): (r: Cell)
    ensures !r.NaN?
    ensures !c.NaN? ==> r == c
  {
    if c.NaN? then Text("") else c
  }

  /** A column of `n` empty strings, as `df[col] = ""` creates. */
  function Blank(n: nat): (col: seq<Cell>)
    ensures |col| == n && forall i :: 0 <= i < n ==> col[i] == Text("")
  {
    seq(n, _ => Text(""))
  }

  /** `columns` with each of `cols` it lacks appended, in the order of `cols`. */
  function AddMissing(columns: seq<string>, cols: seq<string>): seq<string>
    decreases |cols|
  {
    if cols == [] then columns
    else AddMissing(if cols[0] in columns then columns else columns + [cols[0]], cols[1..])
  }

  /**
   * The widened column list keeps the old columns first and in order, holds
   * exactly the old and the requested names, and repeats none.
   */
  lemma {:induction false} AddMissingColumns(columns: seq<string>, cols: seq<string>)
    ensures var r := AddMissing(columns, cols);
      |columns| <= |r| && r[..|columns|] == columns
      && (forall c :: c in r <==> c in columns || c in cols)
      && (NoDup(columns) ==> NoDup(r))
    decreases |cols|
  {
    if cols != [] {
      var next := if cols[0] in columns then columns else columns + [cols[0]];
      AddMissingColumns(next, cols[1..]);
      assert cols == [cols[0]] + cols[1..];
      var r := AddMissing(next, cols[1..]);
      assert r[..|columns|] == next[..|next|][..|columns|];
    }
  }

  /** The cell at row `i` of column `c`, or `""` for a column the frame lacked. */
  function SourceCell(cells: map<string, seq<Cell>>, c: string, i: nat): Cell {
    if c in cells && i < |cells[c]| then cells[c][i] else Text("")
  }

  class Frame {
    var columns: seq<string>
    var cells: map<string, seq<Cell>>
    var height: nat

    /** Distinct column names, a column of `height` cells for each, and no other. */
    ghost predicate Valid()
      reads this
    {
      NoDup(columns)
      && (forall c :: c in cells <==> c in columns)
      && (forall c :: c in cells ==> |cells[c]| == height)
    }

    /** The frame `pd.read_csv` gives: the columns of the file and their cells. */
    constructor (columns: seq<string>, cells: map<string, seq<Cell>>, height: nat)
      requires NoDup(columns) && (forall c :: c in cells <==> c in columns)
      requires forall c :: c in cells ==> |cells[c]| == height
      ensures Valid() && this.columns == columns && this.cells == cells && this.height == height
    {
      this.columns := columns;
      this.cells := cells;
      this.height := height;
    }

    /** `df[col] = ""` for a column the frame lacks: it is appended, empty in every row. */
    method AddColumn(col: string)
      requires Valid() && col !in cells
      modifies this
      ensures Valid() && height == old(height)
      ensures columns == old(columns) + [col]
      ensures cells == old(cells)[col := Blank(height)]
    {
      columns := columns + [col];
      cells := cells[col := Blank(height)];
    }

    /** `if col not in df.columns: df[col] = ""` for each `col` of `cols`, in order. */
    method EnsureColumns(cols: seq<string>)
      requires Valid()
      modifies this
      ensures Valid() && height == old(height)
      ensures columns == AddMissing(old(columns), cols)
      ensures forall c :: c in cols ==> c in cells
      ensures forall c :: c in old(cells) ==> c in cells && cells[c] == old(cells)[c]
      ensures forall c :: c in cells && c !in old(cells) ==> c in cols && cells[c] == Blank(height)
    {
      var i := 0;
      while i < |cols|
        invariant 0 <= i <= |cols|
        invariant Valid() && height == old(height)
        invariant AddMissing(columns, cols[i..]) == AddMissing(old(columns), cols)
        invariant forall c :: c in old(cells) ==> c in cells && cells[c] == old(cells)[c]
        invariant forall c :: c in cells && c !in old(cells) ==> c in cols && cells[c] == Blank(height)
      {
        var col := cols[i];
        assert cols[i..] == [col] + cols[i + 1..];
        if col !in columns {
          AddColumn(col);
        }
        i := i + 1;
      }
      AddMissingColumns(old(columns), cols);
    }

    /** `df[cols]`: a new frame with those columns, in that order. */
    method Select(cols: seq<string>) returns (f: Frame)
      requires Valid() && NoDup(cols) && forall c :: c in cols ==> c in cells
      ensures fresh(f) && f.Valid()
      ensures f.columns == cols && f.height == height
      ensures forall c :: c in cols ==> c in f.cells && f.cells[c] == cells[c]
    {
      f := new Frame(cols, map c | c in cols :: cells[c], height);
    }

    /** `.fillna("")`: every missing cell becomes an empty string. */
    method FillNa()
      requires Valid()
      modifies this
      ensures Valid() && columns == old(columns) && height == old(height)
      ensures forall c :: c in cells ==> forall i :: 0 <= i < height ==> cells[c][i] == FillCell(old(cells)[c][i])
    {
      var h, old_cells := height, cells;
      cells := map c | c in old_cells :: seq(h, i requires 0 <= i < h => FillCell(old_cells[c][i]));
    }

    /** `df[col] = df[col].astype(str).apply(f)` */
    method ApplyColumn(col: string, f: string -> string)
      requires Valid() && col in cells
      modifies this
      ensures Valid() && columns == old(columns) && height == old(height)
      ensures forall c :: c in cells && c != col ==> cells[c] == old(cells)[c]
      ensures forall i :: 0 <= i < height ==> cells[col][i] == Text(f(CellStr(old(cells)[col][i])))
    {
      var h, column := height, cells[col];
      cells := cells[col := seq(h, i requires 0 <= i < h => Text(f(CellStr(column[i]))))];
    }

    /** `df[col] = df[col].apply(f)` for a function of the cell itself. */
    method MapColumn(col: string, f: Cell -> Cell)
      requires Valid() && col in cells
      modifies this
      ensures Valid() && columns == old(columns) && height == old(height)
      ensures col in cells && cells == old(cells)[col := cells[col]]
      ensures forall i :: 0 <= i < height ==> cells[col][i] == f(old(cells)[col][i])
    {
      var h, column := height, cells[col];
      cells := cells[col := seq(h, i requires 0 <= i < h => f(column[i]))];
    }

    /** `df[col] = value`: the column is added at the end, or overwritten, with `value` in every row. */
    method SetColumn(col: string, value: string)
      requires Valid()
      modifies this
      ensures Valid() && height == old(height)
      ensures columns == if col in old(columns) then old(columns) else old(columns) + [col]
      ensures col in cells && cells == old(cells)[col := cells[col]]
      ensures forall c :: c in old(cells) && c != col ==> cells[c] == old(cells)[c]
      ensures forall i :: 0 <= i < height ==> cells[col][i] == Text(value)
    {
      if col !in columns {
        columns := columns + [col];
      }
      cells := cells[col := seq(height, _ => Text(value))];
    }

    /** `df.at[i, col] = value` */
    method SetCell(i: nat, col: string, value: string)
      requires Valid() && col in cells && i < height
      modifies this
      ensures Valid() && columns == old(columns) && height == old(height)
      ensures cells == old(cells)[col := old(cells)[col][i := Text(value)]]
    {
      cells := cells[col := cells[col][i := Text(value)]];
    }

    /** Row `i` as `iterrows` yields it: column name to cell. */
    function Row(i: nat): (row: map<string, Cell>)
      reads this
      requires Valid() && i < height
      ensures forall c :: c in row <==> c in columns
    {
      map c | c in cells :: cells[c][i]
    }
  }

  /** `x.split(",")[0].replace(" ", "")`: the first comma-separated entry, blanks removed. */
  function FirstPhone(x: string): (r: string)
    ensures ',' !in r && ' ' !in r
  {
    var first := Split(x, ',')[0];
    assert multiset(first)[','] == 0;
    RemoveChar(first, ' ')
  }

  /** `x.replace(" ", "")` */
  function NoBlanks(x: string): (r: string)
    ensures ' ' !in r
  {
    RemoveChar(x, ' ')
  }

  /** A phone list gives its first entry, blanks removed: the text before the first comma. */
  lemma FirstPhoneOfList(first: string, rest: string)
    requires ',' !in first
    ensures FirstPhone(first + "," + rest) == RemoveChar(first, ' ')
  {
    assert first + "," + rest == first + [','] + rest;
    SplitAround(first, rest, ',');
  }

  /** A single phone number with no comma only loses its blanks. */
  lemma FirstPhoneSingle(x: string)
    requires ',' !in x
    ensures FirstPhone(x) == NoBlanks(x)
  {
    SplitNoSep(x, ',');
  }

  /** Cleaning the first phone twice changes nothing. */
  lemma FirstPhoneIdempotent(x: string)
    ensures FirstPhone(FirstPhone(x)) == FirstPhone(x)
  {
    var r := FirstPhone(x);
    SplitNoSep(r, ',');
    RemoveCharAbsent(r, ' ');
  }

  /** The columns extractor2.py:91 selects. */
  const UploadColumns: seq<string> := ["Name", "Description", "Categories", "Fulladdress", "Phone", "Phones",
    "Featured Image", "Latitude", "Longitude", "Street", "Website", "Place Id", "Opening Hours"]

  /** The columns extractor.py:14 selects: those of extractor2.py without `Categories`. */
  const LegacyColumns: seq<string> := ["Name", "Description", "Fulladdress", "Phone", "Phones",
    "Featured Image", "Latitude", "Longitude", "Street", "Website", "Place Id", "Opening Hours"]

  lemma UploadColumnsDistinct()
    ensures NoDup(UploadColumns) && "Phones" in UploadColumns && "Phone" in UploadColumns
  {
    forall i, j | 0 <= i < j < |UploadColumns| ensures UploadColumns[i] != UploadColumns[j] {
      DistinctNames(UploadColumns, i, j);
    }
    assert UploadColumns[5] == "Phones" && UploadColumns[4] == "Phone";
  }

  lemma LegacyColumnsDistinct()
    ensures NoDup(LegacyColumns) && "Phones" in LegacyColumns && "Phone" in LegacyColumns
  {
    forall i, j | 0 <= i < j < |LegacyColumns| ensures LegacyColumns[i] != LegacyColumns[j] {
      DistinctNames(LegacyColumns, i, j);
    }
    assert LegacyColumns[4] == "Phones" && LegacyColumns[3] == "Phone";
  }

  /** Two names of a column list differ in length or in one of their first three letters. */
  lemma DistinctNames(cols: seq<string>, i: nat, j: nat)
    requires cols == UploadColumns || cols == LegacyColumns
    requires i < j < |cols|
    ensures cols[i] != cols[j]
  {
    var a, b := cols[i], cols[j];
    assert |a| != |b| || (|a| >= 3 && (a[0] != b[0] || a[1] != b[1] || a[2] != b[2] || a[|a| - 1] != b[|b| - 1]));
  }

  /** What a selected cell becomes: filled, then `Phones` cut to its first entry and `Phone` stripped of blanks. */
  function NormalCell(col: string, c: Cell): (r: Cell)
    ensures !r.NaN?
    ensures col == "Phones" ==> r == Text(FirstPhone(CellStr(FillCell(c))))
    ensures col == "Phone" ==> r == Text(NoBlanks(CellStr(FillCell(c))))
    ensures col != "Phones" && col != "Phone" ==> r == FillCell(c)
  {
    if col == "Phones" then Text(FirstPhone(CellStr(FillCell(c))))
    else if col == "Phone" then Text(NoBlanks(CellStr(FillCell(c))))
    else FillCell(c)
  }

  /** The cells of the selected columns after normalisation, as a function of the cells read. */
  function NormalColumns(cells: map<string, seq<Cell>>, cols: seq<string>, height: nat): (m: map<string, seq<Cell>>)
    ensures forall c :: c in m <==> c in cols
    ensures forall c :: c in m ==> |m[c]| == height
  {
    map c | c in cols :: seq(height, i requires 0 <= i < height => NormalCell(c, SourceCell(cells, c, i)))
  }

  /** A frame whose selected columns hold the normalised cells holds exactly `NormalColumns`. */
  lemma NormalColumnsAre(m: map<string, seq<Cell>>, cells: map<string, seq<Cell>>, cols: seq<string>, height: nat)
    requires forall c :: c in m <==> c in cols
    requires forall c :: c in m ==> |m[c]| == height
    requires forall c, i :: c in cols && 0 <= i < height ==> m[c][i] == NormalCell(c, SourceCell(cells, c, i))
    ensures m == NormalColumns(cells, cols, height)
  {
    var n := NormalColumns(cells, cols, height);
    forall c | c in m ensures m[c] == n[c] {
      assert forall i :: 0 <= i < height ==> m[c][i] == n[c][i];
    }
  }

  /**
   * `df[col] = ""` for each missing selected column, then
   * `df[cols].fillna("")`: every selected cell is the source cell filled, an
   * empty string where the CSV lacked the column.
   */
  method SelectFilled(df: Frame, cols: seq<string>) returns (sel: Frame)
    requires df.Valid() && NoDup(cols)
    modifies df
    ensures fresh(sel) && sel.Valid() && sel.columns == cols && sel.height == old(df.height)
    ensures forall c, i :: c in cols && 0 <= i < sel.height ==>
              sel.cells[c][i] == FillCell(SourceCell(old(df.cells), c, i))
  {
    ghost var read := df.cells;
    df.EnsureColumns(cols);
    ghost var widened := df.cells;
    sel := df.Select(cols);
    sel.FillNa();
    forall c, i | c in cols && 0 <= i < sel.height
      ensures sel.cells[c][i] == FillCell(SourceCell(read, c, i))
    {
      assert widened[c][i] == SourceCell(read, c, i);
    }
  }

  /**
   * extractor2.py:93-100 and extractor.py:17-27: the selected frame has
   * exactly the selected columns; each cell is the normalised source cell, an
   * empty string where the CSV lacked the column.
   */
  method Normalize(df: Frame, cols: seq<string>) returns (sel: Frame)
    requires df.Valid() && NoDup(cols) && "Phones" in cols && "Phone" in cols
    modifies df
    ensures fresh(sel) && sel.Valid() && sel.columns == cols && sel.height == old(df.height)
    ensures forall c, i :: c in cols && 0 <= i < sel.height ==>
              sel.cells[c][i] == NormalCell(c, SourceCell(old(df.cells), c, i))
    ensures sel.cells == NormalColumns(old(df.cells), cols, sel.height)
  {
    sel := SelectFilled(df, cols);
    ghost var filled := sel.cells;
    sel.ApplyColumn("Phones", FirstPhone);
    ghost var phones := sel.cells;
    sel.ApplyColumn("Phone", NoBlanks);
    forall c, i | c in cols && 0 <= i < sel.height
      ensures sel.cells[c][i] == NormalCell(c, SourceCell(old(df.cells), c, i))
    {
      if c == "Phones" {
        assert sel.cells[c][i] == phones[c][i];
      } else if c != "Phone" {
        assert sel.cells[c][i] == phones[c][i] == filled[c][i];
      }
    }
    NormalColumnsAre(sel.cells, old(df.cells), cols, sel.height);
  }

  /** No selected column is called `Email`, so extractor2.py:103 appends it. */
  lemma EmailIsNew()
    ensures "Email" !in UploadColumns
  {
    forall k | 0 <= k < |UploadColumns| ensures UploadColumns[k] != "Email" {
      assert UploadColumns[k][0] != 'E' || |UploadColumns[k]| != 5;
    }
  }

  /** The normalisation of extractor2.py:89-103, which also adds an `Email` column of empty strings. */
  method NormalizeForUpload(df: Frame) returns (sel: Frame)
    requires df.Valid()
    modifies df
    ensures fresh(sel) && sel.Valid() && sel.columns == UploadColumns + ["Email"] && sel.height == old(df.height)
    ensures forall c, i :: c in UploadColumns && 0 <= i < sel.height ==>
              sel.cells[c][i] == NormalCell(c, SourceCell(old(df.cells), c, i))
    ensures forall i :: 0 <= i < sel.height ==> sel.cells["Email"][i] == Text("")
    ensures sel.cells == NormalColumns(old(df.cells), UploadColumns, sel.height)["Email" := Blank(sel.height)]
  {
    UploadColumnsDistinct();
    sel := Normalize(df, UploadColumns);
    EmailIsNew();
    sel.SetColumn("Email", "");
    assert sel.cells["Email"] == Blank(sel.height);
  }

  /** The normalisation of extractor.py:11-27. */
  method NormalizeLegacy(df: Frame) returns (sel: Frame)
    requires df.Valid()
    modifies df
    ensures fresh(sel) && sel.Valid() && sel.columns == LegacyColumns && sel.height == old(df.height)
    ensures forall c, i :: c in LegacyColumns && 0 <= i < sel.height ==>
              sel.cells[c][i] == NormalCell(c, SourceCell(old(df.cells), c, i))
    ensures sel.cells == NormalColumns(old(df.cells), LegacyColumns, sel.height)
  {
    LegacyColumnsDistinct();
    sel := Normalize(df, LegacyColumns);
  }

  /** After normalisation no selected cell is missing, and both phone columns are blank-free text. */
  lemma NormalizedCells(c: string, cell: Cell)
    ensures !NormalCell(c, cell).NaN?
    ensures c == "Phones" || c == "Phone" ==> NormalCell(c, cell).Text? && ' ' !in NormalCell(c, cell).text
    ensures c == "Phones" ==> ',' !in NormalCell(c, cell).text
    ensures cell == NaN ==> NormalCell(c, cell) == Text("")
  {
    if cell == NaN && (c == "Phones" || c == "Phone") {
      SplitNoSep("", ',');
      RemoveCharAbsent("", ' ');
    }
  }
}
