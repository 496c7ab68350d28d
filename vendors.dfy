/// The row loop of `extract_business_data` in extractor2.py:116-179 and
/// extractor.py:38-96: each normalised row becomes a Firestore vendor
/// document, written unless a vendor of the same name is already known.
///
/// The loop stops at the first row that raises (an hours range
/// `parse_opening_hours` cannot read, or a text-only step given a
/// non-text cell); every document written before it stays written. The
/// `vendors` collection is the log of `set` calls, in order, each with the
/// auto-generated id of its document; the ids, the Maps website lookup, the
/// page fetch and Python's set order are parameters.
module Vendors {
  import opened Common
  import opened Table
  import opened Clock
  import HoursScan
  import opened OpeningHours
  import ImageUrl
  import Postcode
  import opened Emails

  type Row = map<string, Cell>

  datatype VendorRecord = VendorRecord(
    active: bool,
    address: string,
    category: Cell,
    city: string,
    contact: Cell,
    country: string,
    description: Cell,
    dynamicLink: string,
    email: string,
    /** `None` where the document has no `additional_emails` field (extractor.py). */
    additionalEmails: Option<string>,
    images: string,
    isVerified: bool,
    latitude: Cell,
    line1: Cell,
    longitude: Cell,
    name: Cell,
    openingHours: map<string, DaySchedule>,
    ownerId: string,
    phone: Cell,
    pincode: Option<string>,
    qrCode: string,
    rating: map<string, int>,
    ratings: seq<string>,
    socialLinks: map<string, string>,
    state: string,
    uid: string,
    website: Cell,
    extracted: bool,
    claimed: bool,
    googlePlaceId: Cell,
    workingDays: map<string, bool>)

  /** `doc_ref.set(business_data)` on the document with id `docId`. */
  datatype Write = Write(docId: string, record: VendorRecord)

  /** Why a row raises. */
  datatype RowError =
    | NotText(column: string)
    | BadHours(error: HoursError)

  /** What a row that does not raise leaves behind: the write, if any, and the `Email` cell. */
  datatype Step = Step(write: Option<Write>, email: string)

  /** The outside services the loop calls. */
  datatype Services = Services(
    lookup: string -> Option<string>,
    fetch: string -> Fetch,
    setIter: seq<string> -> seq<string>,
    newId: nat -> string)

  /** The columns extractor.py's loop reads, all present in a row it normalised. */
  predicate HasLegacyColumns(keys: set<string>) {
    "Name" in keys && "Description" in keys && "Fulladdress" in keys
    && "Phone" in keys && "Phones" in keys && "Featured Image" in keys && "Latitude" in keys
    && "Longitude" in keys && "Street" in keys && "Website" in keys && "Place Id" in keys
    && "Opening Hours" in keys
  }

  /** The columns extractor2.py's loop reads: extractor.py's and `Categories`. */
  predicate HasUploadColumns(keys: set<string>) {
    HasLegacyColumns(keys) && "Categories" in keys
  }

  const WeekRating: map<string, int> := map["1" := 0, "2" := 0, "3" := 0, "4" := 0, "5" := 0, "count" := 0, "rating" := 0]

  const NoSocialLinks: map<string, string> := map["facebookId" := "", "instaId" := ""]

  /** `{day: True for day in [...]}` */
  function AllWorkingDays(): (m: map<string, bool>)
    ensures forall d :: d in m <==> d in Days
    ensures forall d :: d in m ==> m[d]
  {
    map d | d in Days :: true
  }

  /**
   * The `business_data` dictionary: the row's cells where the source copies
   * them, the computed parts, and the fixed values of every new document.
   */
  function NewRecord(row: Row, docId: string, address: string, category: Cell, email: string, additional: Option<string>,
                     images: string, hours: map<string, DaySchedule>, pincode: Option<string>): (r: VendorRecord)
    requires HasLegacyColumns(row.Keys)
    ensures r.ownerId == docId && r.uid == docId
    ensures r.active && r.isVerified && r.extracted && !r.claimed
    ensures r.city == "London" && r.country == "United Kingdom" && r.state == "NA"
    ensures r.dynamicLink == "" && r.qrCode == "" && r.ratings == []
    ensures r.website == row["Website"] && r.googlePlaceId == row["Place Id"] && r.name == row["Name"]
    ensures r.contact == row["Phones"] && r.phone == row["Phone"]
    ensures r.description == row["Description"] && r.line1 == row["Street"]
    ensures r.latitude == row["Latitude"] && r.longitude == row["Longitude"]
    ensures r.address == address && r.category == category && r.images == images && r.pincode == pincode
    ensures r.email == email && r.additionalEmails == additional && r.openingHours == hours
    ensures r.rating == WeekRating && r.socialLinks == NoSocialLinks
    ensures r.workingDays == AllWorkingDays()
  {
    VendorRecord(
      active := true, address := address, category := category, city := "London", contact := row["Phones"],
      country := "United Kingdom", description := row["Description"], dynamicLink := "", email := email,
      additionalEmails := additional, images := images, isVerified := true, latitude := row["Latitude"],
      line1 := row["Street"], longitude := row["Longitude"], name := row["Name"], openingHours := hours,
      ownerId := docId, phone := row["Phone"], pincode := pincode, qrCode := "", rating := WeekRating,
      ratings := [], socialLinks := NoSocialLinks, state := "NA", uid := docId, website := row["Website"],
      extracted := true, claimed := false, googlePlaceId := row["Place Id"], workingDays := AllWorkingDays())
  }

  /**
   * `row["Name"] in registered_vendors`: the cell equals one of the names;
   * a missing cell or a number never does.
   */
  predicate Registered(name: Cell, registered: seq<string>): (r: bool)
    ensures r <==> exists k :: 0 <= k < |registered| && name == Text(registered[k])
    ensures !name.Text? ==> !r
  {
    name.Text? && name.text in registered
  }

  /** The website the emails come from: the row's own, or the Maps lookup when the row's is empty. */
  function ResolvedWebsite(row: Row, env: Services): (w: Option<string>)
    requires HasLegacyColumns(row.Keys) && row["Website"].Text?
    ensures row["Website"].text != "" ==> w == Some(row["Website"].text)
    ensures row["Website"].text == "" ==> w == env.lookup(CellStr(row["Place Id"]))
  {
    var website := row["Website"].text;
    if website == "" then env.lookup(CellStr(row["Place Id"])) else Some(website)
  }

  /** `email if email else ""` */
  function OrEmpty(x: Option<string>): (r: string)
    ensures x.Some? ==> r == x.value
    ensures x.None? ==> r == ""
  {
    if x.Some? && x.value != "" then x.value else ""
  }

  /** The `pincode`, hours, image and emails of extractor2.py:117-146, in the order the source computes them. */
  function UploadStep(row: Row, docId: string, registered: seq<string>, today: Date, env: Services): (r: Result<Step, RowError>)
    requires HasUploadColumns(row.Keys) && IsSetIteration(env.setIter)
    ensures r.Ok? ==> (r.value.write.Some? <==> !Registered(row["Name"], registered))
    ensures r.Ok? && r.value.write.Some? ==>
              var rec := r.value.write.value.record;
              r.value.write.value.docId == docId && rec.ownerId == docId
              && rec.website == row["Website"] && rec.email == r.value.email
              && row["Opening Hours"].Text? && Week(HoursScan.HoursDict(row["Opening Hours"].text), today) == Ok(rec.openingHours)
              && rec.pincode == Postcode.UkPostcode(rec.address) && rec.category == row["Categories"]
              && row["Fulladdress"] == Text(rec.address)
              && row["Featured Image"].Text? && rec.images == ImageUrl.Rescale(row["Featured Image"].text, ImageUrl.DefaultScale)
    ensures r.Ok? && r.value.write.Some? ==>
              var rec := r.value.write.value.record;
              rec == NewRecord(row, docId, rec.address, row["Categories"], r.value.email, rec.additionalEmails,
                               rec.images, rec.openingHours, rec.pincode)
    ensures r.Ok? ==>
              row["Website"].Text? &&
              var found := ExtractEmails(ResolvedWebsite(row, env), env.fetch, env.setIter);
              r.value.email == OrEmpty(found.primary)
              && (r.value.write.Some? ==> r.value.write.value.record.additionalEmails == Some(OrEmpty(found.additional)))
  {
    var address := row["Fulladdress"];
    if !address.Text? then Err(NotText("Fulladdress"))
    else
      var pincode := Postcode.UkPostcode(address.text);
      var hoursText := row["Opening Hours"];
      if !hoursText.Text? then Err(NotText("Opening Hours"))
      else
        match Week(HoursScan.HoursDict(hoursText.text), today)
        case Err(e) => Err(BadHours(e))
        case Ok(hours) =>
          var image := row["Featured Image"];
          if !image.Text? then Err(NotText("Featured Image"))
          else if !row["Website"].Text? then Err(NotText("Website"))
          else
            var website := ResolvedWebsite(row, env);
            var found := if website.Some? && website.value != "" then ExtractEmails(website, env.fetch, env.setIter) else NoEmails;
            var email := OrEmpty(found.primary);
            var record := NewRecord(row, docId, address.text, row["Categories"], email, Some(OrEmpty(found.additional)),
                                    ImageUrl.Rescale(image.text, ImageUrl.DefaultScale), hours, pincode);
            Ok(Step(if Registered(row["Name"], registered) then None else Some(Write(docId, record)), email))
  }

  /** What `json.load` makes of `names.json`: no file, text that is not JSON, or a list of names. */
  datatype NamesFile = Missing | Undecodable | NameList(names: seq<string>)

  /** `is_name_in_list`: a file that cannot be read or decoded counts as naming no one. */
  function IsNameInList(name: Cell, file: NamesFile): (r: bool)
    ensures r <==> file.NameList? && Registered(name, file.names)
  {
    match file
    case Missing => false
    case Undecodable => false
    case NameList(names) => Registered(name, names)
  }

  /** The postcode, hours and image of extractor.py:39-83, in the order the source computes them. */
  function LegacyStep(row: Row, docId: string, file: NamesFile, today: Date): (r: Result<Step, RowError>)
    requires HasLegacyColumns(row.Keys)
    ensures r.Ok? ==> r.value.email == "" && (r.value.write.Some? <==> !IsNameInList(row["Name"], file))
    ensures r.Ok? && r.value.write.Some? ==>
              var rec := r.value.write.value.record;
              r.value.write.value.docId == docId && rec.ownerId == docId
              && rec.category == Text("Other") && rec.email == "" && rec.additionalEmails.None?
              && row["Opening Hours"].Text? && Week(HoursScan.HoursDict(row["Opening Hours"].text), today) == Ok(rec.openingHours)
              && rec.pincode == Postcode.NarrowPostcode(rec.address)
              && row["Fulladdress"] == Text(rec.address)
              && row["Featured Image"].Text? && rec.images == ImageUrl.Rescale(row["Featured Image"].text, ImageUrl.DefaultScale)
    ensures r.Ok? && r.value.write.Some? ==>
              var rec := r.value.write.value.record;
              rec == NewRecord(row, docId, rec.address, Text("Other"), "", None, rec.images, rec.openingHours, rec.pincode)
  {
    var address := row["Fulladdress"];
    if !address.Text? then Err(NotText("Fulladdress"))
    else
      var pincode := Postcode.NarrowPostcode(address.text);
      var hoursText := row["Opening Hours"];
      if !hoursText.Text? then Err(NotText("Opening Hours"))
      else
        match Week(HoursScan.HoursDict(hoursText.text), today)
        case Err(e) => Err(BadHours(e))
        case Ok(hours) =>
          var image := row["Featured Image"];
          if !image.Text? then Err(NotText("Featured Image"))
          else
            var record := NewRecord(row, docId, address.text, Text("Other"), "", None,
                                    ImageUrl.Rescale(image.text, ImageUrl.DefaultScale), hours, pincode);
            Ok(Step(if IsNameInList(row["Name"], file) then None else Some(Write(docId, record)), ""))
  }

  /**
   * The two scripts build the same document from a row, apart from the
   * category, the emails and the postcode pattern: a row extractor2.py
   * writes is one extractor.py can process, and their records agree on every
   * other field.
   */
  lemma UploadAgreesWithLegacy(row: Row, docId: string, registered: seq<string>, file: NamesFile, today: Date, env: Services)
    requires HasUploadColumns(row.Keys) && IsSetIteration(env.setIter)
    requires UploadStep(row, docId, registered, today, env).Ok?
    ensures LegacyStep(row, docId, file, today).Ok?
    ensures var u := UploadStep(row, docId, registered, today, env).value.write;
            var l := LegacyStep(row, docId, file, today).value.write;
            u.Some? && l.Some? ==>
              u.value.record.(category := Text("Other"), email := "", additionalEmails := None,
                              pincode := Postcode.NarrowPostcode(u.value.record.address))
              == l.value.record
  {
  }

  /** The outcome of the loop over the first `n` rows: the writes made, the `Email` cells set, and the error it stopped on. */
  datatype RunOutcome = RunOutcome(writes: seq<Write>, emails: seq<string>, stop: Option<RowError>)

  function WriteOf(s: Step): seq<Write> {
    if s.write.Some? then [s.write.value] else []
  }

  /** The loop over rows whose bodies give `steps`, stopped after `n` rows or at the first that raises. */
  function Run(steps: seq<Result<Step, RowError>>, n: nat): (r: RunOutcome)
    requires n <= |steps|
    ensures |r.emails| <= n
  {
    if n == 0 then RunOutcome([], [], None)
    else
      var prev := Run(steps, n - 1);
      if prev.stop.Some? then prev
      else
        match steps[n - 1]
        case Err(e) => prev.(stop := Some(e))
        case Ok(s) => RunOutcome(prev.writes + WriteOf(s), prev.emails + [s.email], None)
  }

  /**
   * The loop finishes every row before the one it stops on; with no stop it
   * finished all `n`, and a stop is the error of the first row that raised.
   */
  lemma {:induction false} RunStops(steps: seq<Result<Step, RowError>>, n: nat)
    requires n <= |steps|
    ensures var r := Run(steps, n);
      (forall j :: 0 <= j < |r.emails| ==> steps[j].Ok?)
      && (r.stop.None? ==> |r.emails| == n)
      && (r.stop.Some? ==> |r.emails| < n && steps[|r.emails|] == Err(r.stop.value))
  {
    if n > 0 {
      RunStops(steps, n - 1);
    }
  }

  /** Row `j` of the finished ones set the `Email` cell to its own email. */
  lemma {:induction false} RunEmails(steps: seq<Result<Step, RowError>>, n: nat, j: nat)
    requires n <= |steps| && j < |Run(steps, n).emails|
    ensures steps[j].Ok? && Run(steps, n).emails[j] == steps[j].value.email
  {
    RunStops(steps, n);
    var prev := Run(steps, n - 1);
    if j < |prev.emails| {
      RunEmails(steps, n - 1, j);
    } else {
      RunStops(steps, n - 1);
    }
  }

  /** Every write comes from a finished row. */
  lemma {:induction false} RunWriteFrom(steps: seq<Result<Step, RowError>>, n: nat, w: Write) returns (j: nat)
    requires n <= |steps| && w in Run(steps, n).writes
    ensures j < |Run(steps, n).emails| && steps[j].Ok? && steps[j].value.write == Some(w)
  {
    var prev := Run(steps, n - 1);
    RunStops(steps, n - 1);
    if w in prev.writes {
      j := RunWriteFrom(steps, n - 1, w);
    } else {
      j := n - 1;
    }
  }

  /** Every finished row that writes has its write in the log. */
  lemma {:induction false} RunWriteOf(steps: seq<Result<Step, RowError>>, n: nat, j: nat)
    requires n <= |steps| && j < |Run(steps, n).emails|
    requires steps[j].Ok? && steps[j].value.write.Some?
    ensures steps[j].value.write.value in Run(steps, n).writes
  {
    var prev := Run(steps, n - 1);
    RunStops(steps, n - 1);
    if j < |prev.emails| {
      RunWriteOf(steps, n - 1, j);
    }
  }

  /** The cell of column `c` in row `j` of a frame's cells. */
  function RowOf(cells: map<string, seq<Cell>>, j: nat): (row: Row)
    requires forall c :: c in cells ==> j < |cells[c]|
    ensures row.Keys == cells.Keys
    ensures forall c :: c in cells ==> row[c] == cells[c][j]
  {
    map c | c in cells :: cells[c][j]
  }

  /** Every column of `cells` has `height` rows. */
  predicate Rectangular(cells: map<string, seq<Cell>>, height: nat) {
    forall c :: c in cells ==> |cells[c]| == height
  }

  /** A loop body: what row `j` of the frame, with its index, gives. */
  type Body = (Row, nat) --> Result<Step, RowError>

  /** The rows `iterrows` yields, each as its column-to-cell map. */
  function Rows(cells: map<string, seq<Cell>>, height: nat): (rows: seq<Row>)
    requires Rectangular(cells, height)
    ensures |rows| == height
    ensures forall j :: 0 <= j < height ==> rows[j] == RowOf(cells, j)
  {
    seq(height, j requires 0 <= j < height => RowOf(cells, j))
  }

  /** The loop body applied to each row. */
  function StepsOf(rows: seq<Row>, body: Body): (steps: seq<Result<Step, RowError>>)
    requires forall j :: 0 <= j < |rows| ==> body.requires(rows[j], j)
    ensures |steps| == |rows|
    ensures forall j :: 0 <= j < |rows| ==> steps[j] == body(rows[j], j)
  {
    seq(|rows|, j requires 0 <= j < |rows| => body(rows[j], j))
  }

  /** The Firestore `vendors` collection, as the log of documents written into it. */
  class VendorStore {
    var writes: seq<Write>

    constructor ()
      ensures writes == []
    {
      writes := [];
    }

    /** `doc_ref.set(business_data)` */
    method Set(w: Write)
      modifies this
      ensures writes == old(writes) + [w]
    {
      writes := writes + [w];
    }
  }

  /** One more finished row extends the outcome by its write and its email. */
  lemma RunNext(steps: seq<Result<Step, RowError>>, i: nat)
    requires i < |steps| && Run(steps, i).stop.None? && steps[i].Ok?
    ensures Run(steps, i + 1) ==
              RunOutcome(Run(steps, i).writes + WriteOf(steps[i].value), Run(steps, i).emails + [steps[i].value.email], None)
  {
  }

  /** Past the first row that raises, the outcome no longer changes. */
  lemma {:induction false} RunAfterStop(steps: seq<Result<Step, RowError>>, i: nat, n: nat)
    requires i < n <= |steps| && Run(steps, i).stop.None? && steps[i].Err?
    ensures Run(steps, n) == Run(steps, i).(stop := Some(steps[i].error))
  {
    if n > i + 1 {
      RunAfterStop(steps, i, n - 1);
    }
  }

  /** The `Email` cells before row `n` hold `emails`; the rest are as they were. */
  ghost predicate EmailsUpTo(cells: map<string, seq<Cell>>, before: seq<Cell>, height: nat, emails: seq<string>, n: nat) {
    "Email" in cells && |cells["Email"]| == height && |before| == height && |emails| == n <= height
    && forall j :: 0 <= j < height ==> cells["Email"][j] == if j < n then Text(emails[j]) else before[j]
  }

  /** extractor2.py:134 and 173-177 for row `i`, given what the row's body computed. */
  method FinishRow(store: VendorStore, sel: Frame, i: nat, step: Step, ghost before: seq<Cell>, ghost emails: seq<string>)
    requires sel.Valid() && i < sel.height && EmailsUpTo(sel.cells, before, sel.height, emails, i)
    modifies store, sel
    ensures store.writes == old(store.writes) + WriteOf(step)
    ensures sel.Valid() && sel.columns == old(sel.columns) && sel.height == old(sel.height)
    ensures "Email" in sel.cells && sel.cells == old(sel.cells)["Email" := sel.cells["Email"]]
    ensures EmailsUpTo(sel.cells, before, sel.height, emails + [step.email], i + 1)
  {
    sel.SetCell(i, "Email", step.email);
    if step.write.Some? {
      store.Set(step.write.value);
    }
  }

  /**
   * extractor2.py's loop over the rows of a frame, as `iterrows` yields them:
   * each row's body runs, its `Email` cell is set and its document written
   * if the body asks for it; the loop stops at the first row that raises.
   */
  method RowLoop(store: VendorStore, sel: Frame, rows: seq<Row>, body: Body) returns (stop: Option<RowError>)
    requires sel.Valid() && |rows| == sel.height && "Email" in sel.cells
    requires forall j :: 0 <= j < |rows| ==> body.requires(rows[j], j)
    modifies store, sel
    ensures var run := Run(StepsOf(rows, body), |rows|);
      store.writes == old(store.writes) + run.writes && stop == run.stop
      && sel.Valid() && sel.columns == old(sel.columns) && sel.height == old(sel.height)
      && (forall c :: c in old(sel.cells) && c != "Email" ==> sel.cells[c] == old(sel.cells)[c])
      && EmailsUpTo(sel.cells, old(sel.cells)["Email"], sel.height, run.emails, |run.emails|)
  {
    ghost var steps := StepsOf(rows, body);
    ghost var before := sel.cells["Email"];
    ghost var run := Run(steps, 0);
    var i := 0;
    while i < |rows|
      invariant 0 <= i <= |rows| == sel.height
      invariant sel.Valid() && sel.columns == old(sel.columns)
      invariant "Email" in sel.cells && sel.cells == old(sel.cells)["Email" := sel.cells["Email"]]
      invariant run == Run(steps, i) && run.stop.None? && |run.emails| == i
      invariant store.writes == old(store.writes) + run.writes
      invariant EmailsUpTo(sel.cells, before, sel.height, run.emails, i)
    {
      var step := body(rows[i], i);
      if step.Err? {
        RunAfterStop(steps, i, |rows|);
        return Some(step.error);
      }
      FinishRow(store, sel, i, step.value, before, run.emails);
      RunNext(steps, i);
      run := RunOutcome(run.writes + WriteOf(step.value), run.emails + [step.value.email], None);
      i := i + 1;
    }
    return None;
  }

  /**
   * extractor.py's loop over the rows: each row's body runs and its document
   * is written if the body asks for it; the frame itself is not touched and
   * the loop stops at the first row that raises.
   */
  method WriteLoop(store: VendorStore, rows: seq<Row>, body: Body) returns (stop: Option<RowError>)
    requires forall j :: 0 <= j < |rows| ==> body.requires(rows[j], j)
    modifies store
    ensures var run := Run(StepsOf(rows, body), |rows|);
      store.writes == old(store.writes) + run.writes && stop == run.stop
  {
    ghost var steps := StepsOf(rows, body);
    ghost var run := Run(steps, 0);
    var i := 0;
    while i < |rows|
      invariant 0 <= i <= |rows|
      invariant run == Run(steps, i) && run.stop.None?
      invariant store.writes == old(store.writes) + run.writes
    {
      var step := body(rows[i], i);
      if step.Err? {
        RunAfterStop(steps, i, |rows|);
        return Some(step.error);
      }
      if step.value.write.Some? {
        store.Set(step.value.write.value);
      }
      RunNext(steps, i);
      run := RunOutcome(run.writes + WriteOf(step.value), run.emails + [step.value.email], None);
      i := i + 1;
    }
    return None;
  }

  /** The body of extractor2.py's loop: row `j` is written, if at all, under the `j`-th new document id. */
  function UploadBody(registered: seq<string>, today: Date, env: Services): (body: Body)
    requires IsSetIteration(env.setIter)
    ensures forall row: Row, j: nat :: HasUploadColumns(row.Keys) ==> body.requires(row, j)
    ensures forall row: Row, j: nat :: HasUploadColumns(row.Keys) ==>
              body(row, j) == UploadStep(row, env.newId(j), registered, today, env)
  {
    (row: Row, j: nat) requires HasUploadColumns(row.Keys) => UploadStep(row, env.newId(j), registered, today, env)
  }

  /**
   * The loop of extractor2.py:116-179 over a normalised frame: each row's
   * `Email` cell is set and its document written unless the name is
   * registered; the loop stops at the first row that raises.
   */
  method UploadAll(store: VendorStore, sel: Frame, registered: seq<string>, today: Date, env: Services)
    returns (stop: Option<RowError>)
    requires sel.Valid() && HasUploadColumns(sel.cells.Keys) && "Email" in sel.cells && IsSetIteration(env.setIter)
    modifies store, sel
    ensures var run := UploadRun(old(sel.cells), old(sel.height), registered, today, env);
      store.writes == old(store.writes) + run.writes && stop == run.stop
      && sel.Valid() && sel.columns == old(sel.columns) && sel.height == old(sel.height)
      && (forall c :: c in old(sel.cells) && c != "Email" ==> sel.cells[c] == old(sel.cells)[c])
      && EmailsUpTo(sel.cells, old(sel.cells)["Email"], sel.height, run.emails, |run.emails|)
  {
    var rows := Rows(sel.cells, sel.height);
    var body := UploadBody(registered, today, env);
    stop := RowLoop(store, sel, rows, body);
  }

  /** The body of extractor.py's loop: row `j` is written, if at all, under the `j`-th new document id. */
  function LegacyBody(file: NamesFile, today: Date, newId: nat -> string): (body: Body)
    ensures forall row: Row, j: nat :: HasLegacyColumns(row.Keys) ==> body.requires(row, j)
    ensures forall row: Row, j: nat :: HasLegacyColumns(row.Keys) ==>
              body(row, j) == LegacyStep(row, newId(j), file, today)
  {
    (row: Row, j: nat) requires HasLegacyColumns(row.Keys) => LegacyStep(row, newId(j), file, today)
  }

  /**
   * The loop of extractor.py:38-96 over a normalised frame: each row's
   * document is written unless `names.json` lists its name; the frame is
   * left as it is and the loop stops at the first row that raises.
   */
  method UploadLegacy(store: VendorStore, sel: Frame, file: NamesFile, today: Date, newId: nat -> string)
    returns (stop: Option<RowError>)
    requires sel.Valid() && HasLegacyColumns(sel.cells.Keys)
    modifies store
    ensures var run := LegacyRun(sel.cells, sel.height, file, today, newId);
      store.writes == old(store.writes) + run.writes && stop == run.stop
  {
    var rows := Rows(sel.cells, sel.height);
    var body := LegacyBody(file, today, newId);
    stop := WriteLoop(store, rows, body);
  }

  /** What extractor2.py's loop does over a normalised frame with these cells. */
  function UploadRun(cells: map<string, seq<Cell>>, height: nat, registered: seq<string>, today: Date, env: Services): (run: RunOutcome)
    requires Rectangular(cells, height) && HasUploadColumns(cells.Keys) && IsSetIteration(env.setIter)
    ensures |run.emails| <= height
  {
    Run(StepsOf(Rows(cells, height), UploadBody(registered, today, env)), height)
  }

  /** What extractor.py's loop does over a normalised frame with these cells. */
  function LegacyRun(cells: map<string, seq<Cell>>, height: nat, file: NamesFile, today: Date, newId: nat -> string): (run: RunOutcome)
    requires Rectangular(cells, height) && HasLegacyColumns(cells.Keys)
    ensures |run.emails| <= height
  {
    Run(StepsOf(Rows(cells, height), LegacyBody(file, today, newId)), height)
  }

  /** Each document id is drawn once: `document()` never repeats an id. */
  ghost predicate Injective(newId: nat -> string) {
    forall j, k :: j != k ==> newId(j) != newId(k)
  }

  /**
   * In extractor2.py's loop, a row the loop finished has its document
   * written, under its own id, exactly when its name is not registered;
   * the registry is read once, so the answer does not depend on the rows
   * before it.
   */
  lemma UploadWrittenIff(cells: map<string, seq<Cell>>, height: nat, registered: seq<string>, today: Date, env: Services, j: nat)
    requires Rectangular(cells, height) && HasUploadColumns(cells.Keys) && IsSetIteration(env.setIter) && Injective(env.newId)
    requires j < |UploadRun(cells, height, registered, today, env).emails|
    ensures (exists w :: w in UploadRun(cells, height, registered, today, env).writes && w.docId == env.newId(j))
            <==> !Registered(cells["Name"][j], registered)
  {
    var rows := Rows(cells, height);
    var steps := StepsOf(rows, UploadBody(registered, today, env));
    var run := Run(steps, height);
    RunStops(steps, height);
    assert steps[j] == UploadStep(rows[j], env.newId(j), registered, today, env);
    if !Registered(cells["Name"][j], registered) {
      RunWriteOf(steps, height, j);
      assert steps[j].value.write.value.docId == env.newId(j);
    } else {
      forall w | w in run.writes ensures w.docId != env.newId(j) {
        var k := RunWriteFrom(steps, height, w);
        assert steps[k] == UploadStep(rows[k], env.newId(k), registered, today, env);
      }
    }
  }

  /** Two finished rows with the same unregistered name are both written: the loop never adds to the registry. */
  lemma UploadDuplicatesWritten(cells: map<string, seq<Cell>>, height: nat, registered: seq<string>, today: Date, env: Services,
                                j: nat, k: nat)
    requires Rectangular(cells, height) && HasUploadColumns(cells.Keys) && IsSetIteration(env.setIter) && Injective(env.newId)
    requires j < k < |UploadRun(cells, height, registered, today, env).emails|
    requires cells["Name"][j] == cells["Name"][k] && !Registered(cells["Name"][j], registered)
    ensures exists w :: w in UploadRun(cells, height, registered, today, env).writes && w.docId == env.newId(j)
    ensures exists w :: w in UploadRun(cells, height, registered, today, env).writes && w.docId == env.newId(k)
  {
    UploadWrittenIff(cells, height, registered, today, env, j);
    UploadWrittenIff(cells, height, registered, today, env, k);
  }

  /**
   * Nothing is written for the row the loop stops on or any row after it:
   * every write carries the id of a row before the stop.
   */
  lemma UploadNoWriteAfterStop(cells: map<string, seq<Cell>>, height: nat, registered: seq<string>, today: Date, env: Services, w: Write)
    requires Rectangular(cells, height) && HasUploadColumns(cells.Keys) && IsSetIteration(env.setIter)
    requires w in UploadRun(cells, height, registered, today, env).writes
    ensures exists j :: 0 <= j < |UploadRun(cells, height, registered, today, env).emails| && w.docId == env.newId(j)
  {
    var rows := Rows(cells, height);
    var steps := StepsOf(rows, UploadBody(registered, today, env));
    var j := RunWriteFrom(steps, height, w);
    assert steps[j] == UploadStep(rows[j], env.newId(j), registered, today, env);
  }

  /** A row the loop finished leaves in its `Email` cell the email of the row's own step. */
  lemma UploadEmailCell(cells: map<string, seq<Cell>>, height: nat, registered: seq<string>, today: Date, env: Services, j: nat)
    requires Rectangular(cells, height) && HasUploadColumns(cells.Keys) && IsSetIteration(env.setIter)
    requires j < |UploadRun(cells, height, registered, today, env).emails|
    ensures var step := UploadStep(RowOf(cells, j), env.newId(j), registered, today, env);
      step.Ok? && UploadRun(cells, height, registered, today, env).emails[j] == step.value.email
  {
    var rows := Rows(cells, height);
    var steps := StepsOf(rows, UploadBody(registered, today, env));
    RunEmails(steps, height, j);
  }

  /**
   * The Maps lookup matters only for a row whose `Website` is empty: with a
   * non-empty website any two lookups give the same step.
   */
  lemma FallbackOnlyWhenEmpty(row: Row, docId: string, registered: seq<string>, today: Date, env: Services,
                              lookup: string -> Option<string>)
    requires HasUploadColumns(row.Keys) && IsSetIteration(env.setIter)
    requires row["Website"] != Text("")
    ensures UploadStep(row, docId, registered, today, env) == UploadStep(row, docId, registered, today, env.(lookup := lookup))
  {
    if row["Website"].Text? {
      assert ResolvedWebsite(row, env) == ResolvedWebsite(row, env.(lookup := lookup));
    }
  }

  /**
   * The email of a row is one the page of its resolved website lists; the
   * stored `website` field is the row's own, even when the website came from
   * the lookup.
   */
  lemma EmailFromResolvedWebsite(row: Row, docId: string, registered: seq<string>, today: Date, env: Services)
    requires HasUploadColumns(row.Keys) && IsSetIteration(env.setIter)
    requires UploadStep(row, docId, registered, today, env).Ok?
    ensures var step := UploadStep(row, docId, registered, today, env).value;
      step.email != "" ==>
        var website := ResolvedWebsite(row, env);
        website.Some? && website.value != ""
        && env.fetch(WithScheme(website.value)).Page? && step.email in env.fetch(WithScheme(website.value)).matches
  {
    var step := UploadStep(row, docId, registered, today, env).value;
    if step.email != "" {
      var website := ResolvedWebsite(row, env);
      assert website.Some? && website.value != "";
      var es := FoundEmails(website.value, env.fetch, env.setIter);
    }
  }

  /**
   * In extractor.py's loop, a row the loop finished has its document written,
   * under its own id, exactly when `names.json` does not list its name.
   */
  lemma LegacyWrittenIff(cells: map<string, seq<Cell>>, height: nat, file: NamesFile, today: Date, newId: nat -> string, j: nat)
    requires Rectangular(cells, height) && HasLegacyColumns(cells.Keys) && Injective(newId)
    requires j < |LegacyRun(cells, height, file, today, newId).emails|
    ensures (exists w :: w in LegacyRun(cells, height, file, today, newId).writes && w.docId == newId(j))
            <==> !IsNameInList(cells["Name"][j], file)
  {
    var rows := Rows(cells, height);
    var steps := StepsOf(rows, LegacyBody(file, today, newId));
    var run := Run(steps, height);
    RunStops(steps, height);
    assert steps[j] == LegacyStep(rows[j], newId(j), file, today);
    if !IsNameInList(cells["Name"][j], file) {
      RunWriteOf(steps, height, j);
      assert steps[j].value.write.value.docId == newId(j);
    } else {
      forall w | w in run.writes ensures w.docId != newId(j) {
        var k := RunWriteFrom(steps, height, w);
        assert steps[k] == LegacyStep(rows[k], newId(k), file, today);
      }
    }
  }

  /** Every step of extractor.py's loop that does not raise writes when `names.json` cannot be read. */
  lemma {:induction false} RunAllWritten(steps: seq<Result<Step, RowError>>, n: nat)
    requires n <= |steps|
    requires forall j :: 0 <= j < n && steps[j].Ok? ==> steps[j].value.write.Some?
    ensures |Run(steps, n).writes| == |Run(steps, n).emails|
  {
    if n > 0 {
      RunAllWritten(steps, n - 1);
    }
  }

  /** Without a readable `names.json` every row extractor.py finishes is written. */
  lemma MissingFileWritesAll(cells: map<string, seq<Cell>>, height: nat, file: NamesFile, today: Date, newId: nat -> string)
    requires Rectangular(cells, height) && HasLegacyColumns(cells.Keys) && !file.NameList?
    ensures |LegacyRun(cells, height, file, today, newId).writes| == |LegacyRun(cells, height, file, today, newId).emails|
  {
    var rows := Rows(cells, height);
    var steps := StepsOf(rows, LegacyBody(file, today, newId));
    forall j | 0 <= j < height && steps[j].Ok? ensures steps[j].value.write.Some? {
      assert steps[j] == LegacyStep(rows[j], newId(j), file, today);
    }
    RunAllWritten(steps, height);
  }

  /** A frame holding every column extractor.py selects has those its loop reads. */
  lemma LegacyKeys(keys: set<string>)
    requires forall c :: c in LegacyColumns ==> c in keys
    ensures HasLegacyColumns(keys)
  {
    forall k | 0 <= k < |LegacyColumns| ensures LegacyColumns[k] in keys {
      assert LegacyColumns[k] in LegacyColumns;
    }
  }

  /** A frame holding every column extractor2.py selects has those its loop reads. */
  lemma UploadKeys(keys: set<string>)
    requires forall c :: c in UploadColumns ==> c in keys
    ensures HasUploadColumns(keys)
  {
    forall k | 0 <= k < |UploadColumns| ensures UploadColumns[k] in keys {
      assert UploadColumns[k] in UploadColumns;
    }
  }

  /** The frame extractor2.py's loop runs over: the 13 normalised columns and an empty `Email` column. */
  function UploadCells(cells: map<string, seq<Cell>>, height: nat): (m: map<string, seq<Cell>>)
    ensures Rectangular(m, height) && HasUploadColumns(m.Keys) && "Email" in m
  {
    var m := NormalColumns(cells, UploadColumns, height)["Email" := Blank(height)];
    UploadKeys(m.Keys);
    m
  }

  /** The frame extractor.py's loop runs over: the 12 normalised columns. */
  function LegacyCells(cells: map<string, seq<Cell>>, height: nat): (m: map<string, seq<Cell>>)
    ensures Rectangular(m, height) && HasLegacyColumns(m.Keys)
  {
    var m := NormalColumns(cells, LegacyColumns, height);
    LegacyKeys(m.Keys);
    m
  }

  /**
   * `extract_business_data` of extractor2.py: the frame read is normalised,
   * and the row loop then writes to `vendors` exactly what `UploadRun` says
   * of the normalised cells, leaving the emails it found in the `Email` column.
   */
  method ExtractBusinessData(store: VendorStore, df: Frame, registered: seq<string>, today: Date, env: Services)
    returns (sel: Frame, stop: Option<RowError>)
    requires df.Valid() && IsSetIteration(env.setIter)
    modifies store, df
    ensures var run := UploadRun(UploadCells(old(df.cells), old(df.height)), old(df.height), registered, today, env);
      store.writes == old(store.writes) + run.writes && stop == run.stop
      && fresh(sel) && sel.Valid() && sel.columns == UploadColumns + ["Email"] && sel.height == old(df.height)
      && EmailsUpTo(sel.cells, Blank(sel.height), sel.height, run.emails, |run.emails|)
  {
    sel := NormalizeForUpload(df);
    assert sel.cells == UploadCells(old(df.cells), old(df.height));
    stop := UploadAll(store, sel, registered, today, env);
  }

  /**
   * `extract_business_data` of extractor.py: the frame read is normalised,
   * and the row loop then writes to `vendors` exactly what `LegacyRun` says
   * of the normalised cells.
   */
  method ExtractLegacyBusinessData(store: VendorStore, df: Frame, file: NamesFile, today: Date, newId: nat -> string)
    returns (stop: Option<RowError>)
    requires df.Valid()
    modifies store, df
    ensures var run := LegacyRun(LegacyCells(old(df.cells), old(df.height)), old(df.height), file, today, newId);
      store.writes == old(store.writes) + run.writes && stop == run.stop
  {
    var sel := NormalizeLegacy(df);
    assert sel.cells == LegacyCells(old(df.cells), old(df.height));
    stop := UploadLegacy(store, sel, file, today, newId);
  }
}
