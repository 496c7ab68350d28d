/// `process_csv` (new2.py:75-114): every row of a frame read from a CSV gets
/// the emails of the website Google Maps lists for its place id, in two new
/// columns, `Email` and `Additional Emails`. The Maps lookup
/// (`get_website_from_place_id`) is a parameter from the place id to the
/// website it finds, if any.
module EmailCsv {
  import opened Common
  import opened Table
  import opened Emails

  /** The two cells a row ends with: `Email` and `Additional Emails`. */
  datatype RowEmails = RowEmails(email: string, additional: string)

  /**
   * The cells new2.py:95-103 leave in a row whose place id is `placeId`:
   * the emails found on its website, or the empty strings the columns
   * started with when there is no website or no email.
   */
  function EmailsFor(placeId: Cell, lookup: string -> Option<string>, fetch: string -> Fetch,
                     setIter: seq<string> -> seq<string>): (r: RowEmails)
    requires IsSetIteration(setIter)
    ensures r.email == "" ==> r.additional == ""
    ensures r.email != "" ==>
              var website := lookup(CellStr(placeId));
              website.Some? && website.value != ""
              && fetch(WithScheme(website.value)).Page? && r.email in fetch(WithScheme(website.value)).matches
  {
    var website := lookup(CellStr(placeId));
    if website.None? || website.value == "" then RowEmails("", "")
    else
      var found := ExtractEmails(website, fetch, setIter);
      if found.primary.Some? && found.primary.value != "" then RowEmails(found.primary.value, found.additional.value)
      else RowEmails("", "")
  }

  /** The cells hold exactly extractor2.py's result whenever it names a non-empty primary email. */
  lemma EmailsForFound(placeId: Cell, lookup: string -> Option<string>, fetch: string -> Fetch,
                       setIter: seq<string> -> seq<string>)
    requires IsSetIteration(setIter)
    ensures var website := lookup(CellStr(placeId));
      var found := ExtractEmails(website, fetch, setIter);
      var r := EmailsFor(placeId, lookup, fetch, setIter);
      (found.primary.Some? && found.primary.value != "" ==> r == RowEmails(found.primary.value, found.additional.value))
      && (found.primary.None? ==> r == RowEmails("", ""))
  {
  }

  /** new2.py:90-110 for the row at `index`, whose email cells still hold `""`. */
  method RecordRow(df: Frame, index: nat, placeId: Cell, lookup: string -> Option<string>, fetch: string -> Fetch,
                   setIter: seq<string> -> seq<string>)
    requires df.Valid() && IsSetIteration(setIter) && index < df.height
    requires "Email" in df.cells && "Additional Emails" in df.cells
    requires df.cells["Email"][index] == Text("") && df.cells["Additional Emails"][index] == Text("")
    modifies df
    ensures df.Valid() && df.columns == old(df.columns) && df.height == old(df.height)
    ensures forall c :: c in old(df.cells) && c != "Email" && c != "Additional Emails" ==> df.cells[c] == old(df.cells)[c]
    ensures forall i :: 0 <= i < df.height && i != index ==>
              df.cells["Email"][i] == old(df.cells)["Email"][i] && df.cells["Additional Emails"][i] == old(df.cells)["Additional Emails"][i]
    ensures df.cells["Email"][index] == Text(EmailsFor(placeId, lookup, fetch, setIter).email)
    ensures df.cells["Additional Emails"][index] == Text(EmailsFor(placeId, lookup, fetch, setIter).additional)
  {
    var website := lookup(CellStr(placeId));
    if website.Some? && website.value != "" {
      var found := ExtractEmails(website, fetch, setIter);
      if found.primary.Some? && found.primary.value != "" {
        df.SetCell(index, "Email", found.primary.value);
        df.SetCell(index, "Additional Emails", found.additional.value);
      }
    }
  }

  /** The email cells of each row, from its place id. */
  function EmailsOf(placeIds: seq<Cell>, lookup: string -> Option<string>, fetch: string -> Fetch,
                    setIter: seq<string> -> seq<string>): (want: seq<RowEmails>)
    requires IsSetIteration(setIter)
    ensures |want| == |placeIds|
    ensures forall i :: 0 <= i < |placeIds| ==> want[i] == EmailsFor(placeIds[i], lookup, fetch, setIter)
  {
    seq(|placeIds|, i requires 0 <= i < |placeIds| => EmailsFor(placeIds[i], lookup, fetch, setIter))
  }

  /** The email cells of rows before `n` hold `want`, and those from `n` on still hold `""`. */
  ghost predicate FilledUpTo(cells: map<string, seq<Cell>>, height: nat, want: seq<RowEmails>, n: nat) {
    "Email" in cells && "Additional Emails" in cells && |want| == height
    && |cells["Email"]| == height && |cells["Additional Emails"]| == height
    && (forall i :: 0 <= i < height ==> cells["Email"][i] == Text(if i < n then want[i].email else ""))
    && (forall i :: 0 <= i < height ==> cells["Additional Emails"][i] == Text(if i < n then want[i].additional else ""))
  }

  /** new2.py:89-110: the row loop, over a frame whose email columns are still empty. */
  method FillEmails(df: Frame, lookup: string -> Option<string>, fetch: string -> Fetch,
                    setIter: seq<string> -> seq<string>, ghost want: seq<RowEmails>)
    requires df.Valid() && IsSetIteration(setIter) && "Place Id" in df.cells
    requires "Place Id" != "Email" && "Place Id" != "Additional Emails"
    requires |want| == df.height
    requires forall i :: 0 <= i < df.height ==> want[i] == EmailsFor(df.cells["Place Id"][i], lookup, fetch, setIter)
    requires FilledUpTo(df.cells, df.height, want, 0)
    modifies df
    ensures df.Valid() && df.columns == old(df.columns) && df.height == old(df.height)
    ensures forall c :: c in old(df.cells) && c != "Email" && c != "Additional Emails" ==> df.cells[c] == old(df.cells)[c]
    ensures FilledUpTo(df.cells, df.height, want, df.height)
  {
    var index := 0;
    while index < df.height
      invariant 0 <= index <= df.height == old(df.height)
      invariant df.Valid() && df.columns == old(df.columns)
      invariant forall c :: c in old(df.cells) && c != "Email" && c != "Additional Emails" ==> df.cells[c] == old(df.cells)[c]
      invariant FilledUpTo(df.cells, df.height, want, index)
    {
      RecordRow(df, index, df.cells["Place Id"][index], lookup, fetch, setIter);
      index := index + 1;
    }
  }

  /**
   * `process_csv`: without a `Place Id` column nothing is written and the
   * frame is left as read; otherwise both email columns are set (to `""`
   * and then per row) and every other column is kept.
   */
  method ProcessCsv(df: Frame, lookup: string -> Option<string>, fetch: string -> Fetch,
                    setIter: seq<string> -> seq<string>) returns (written: bool)
    requires df.Valid() && IsSetIteration(setIter)
    modifies df
    ensures written <==> "Place Id" in old(df.cells)
    ensures !written ==> df.columns == old(df.columns) && df.cells == old(df.cells)
    ensures written ==>
              df.Valid() && df.height == old(df.height)
              && (forall c :: c in old(df.cells) && c != "Email" && c != "Additional Emails" ==> c in df.cells && df.cells[c] == old(df.cells)[c])
              && FilledUpTo(df.cells, df.height, EmailsOf(old(df.cells)["Place Id"], lookup, fetch, setIter), df.height)
  {
    if "Place Id" !in df.columns {
      return false;
    }
    ghost var want := EmailsOf(df.cells["Place Id"], lookup, fetch, setIter);
    df.SetColumn("Email", "");
    df.SetColumn("Additional Emails", "");
    FillEmails(df, lookup, fetch, setIter, want);
    return true;
  }
}
