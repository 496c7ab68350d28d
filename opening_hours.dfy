/// `parse_opening_hours(row)` (extractor2.py:224-272, extractor.py:164-211):
/// for each day of the week, in order, take the day's range from the scanned
/// map (the day is open) or the default range (the day is closed), split it
/// at `-` into a start and an end text, and read both on today's date.
///
/// Two things raise in the source and abort the whole import: a range that
/// does not split into exactly two parts (`start_time, end_time = ...`
/// unpacks a list of the wrong length) and a time text `strptime` rejects.
/// Both become an `Err` here, reported for the first day that fails.
module OpeningHours {
  import opened Common
  import opened Clock
  import HoursScan

  /** The days `parse_opening_hours` visits, in the order of `default_hours`. */
  const Days: seq<string> := ["Monday", "Tuesday", "Wednesday", "Thursday", "Friday", "Saturday", "Sunday"]

  /** The range of a day missing from the scanned map. */
  function DefaultHours(day: string): (hours: string)
    ensures day == "Sunday" ==> hours == "10 am-8 pm"
    ensures day != "Sunday" ==> hours == "10 am-8:30 pm"
  {
    if day == "Sunday" then "10 am-8 pm" else "10 am-8:30 pm"
  }

  /** The Firestore entry of one day. */
  datatype DaySchedule = DaySchedule(startTime: Instant, endTime: Instant, isOpen: bool)

  /** What makes `parse_opening_hours` raise. */
  datatype HoursError =
    | RangeNotTwoParts(day: string, hours: string)
    | TimeNotParsed(day: string, text: string, reason: TimeError)

  /** The range used for `day`: the scanned one if present, else the default. */
  function RangeFor(row: map<string, string>, day: string): (hours: string)
    ensures day in row ==> hours == row[day]
    ensures day !in row ==> Split(hours, '-') == ["10 am", if day == "Sunday" then "8 pm" else "8:30 pm"]
  {
    DefaultSplits();
    if day in row then row[day] else DefaultHours(day)
  }

  /** Splitting `hours` and reading its two times, for a day that is open or not. */
  function ParseDay(day: string, hours: string, isOpen: bool, today: Date): (r: Result<DaySchedule, HoursError>)
    ensures r.Ok? ==> r.value.isOpen == isOpen
    ensures r.Ok? ==> r.value.startTime.date == today && r.value.endTime.date == today
    ensures r.Ok? ==> |Split(hours, '-')| == 2
    ensures r.Err? && r.error.RangeNotTwoParts? ==> |Split(hours, '-')| != 2
  {
    var parts := Split(hours, '-');
    if |parts| != 2 then Err(RangeNotTwoParts(day, hours))
    else
      match ConvertToUtcDateTime(today, parts[0])
      case Err(e) => Err(TimeNotParsed(day, parts[0], e))
      case Ok(start) =>
        match ConvertToUtcDateTime(today, parts[1])
        case Err(e) => Err(TimeNotParsed(day, parts[1], e))
        case Ok(end) => Ok(DaySchedule(start, end, isOpen))
  }

  /** One iteration of the loop of `parse_opening_hours`, for `day`. */
  function DayEntry(row: map<string, string>, day: string, today: Date): (r: Result<DaySchedule, HoursError>)
    ensures r.Ok? ==> r.value.isOpen == (day in row)
  {
    ParseDay(day, RangeFor(row, day), day in row, today)
  }

  /** The outcome of the loop body for each day, in the order of `Days`. */
  function Entries(row: map<string, string>, today: Date): (es: seq<Result<DaySchedule, HoursError>>)
    ensures |es| == |Days|
  {
    seq(|Days|, k requires 0 <= k < |Days| => DayEntry(row, Days[k], today))
  }

  /**
   * The loop over `names` after its first `n` iterations, given each
   * iteration's outcome: the map built so far, or the first error, which
   * ends the loop.
   */
  function Collect(names: seq<string>, es: seq<Result<DaySchedule, HoursError>>, n: nat): Result<map<string, DaySchedule>, HoursError>
    requires n <= |names| == |es|
  {
    if n == 0 then Ok(map[])
    else
      match Collect(names, es, n - 1)
      case Err(e) => Err(e)
      case Ok(m) =>
        match es[n - 1]
        case Err(e) => Err(e)
        case Ok(d) => Ok(m[names[n - 1] := d])
  }

  /** After `n` successful iterations the map holds exactly the first `n` names. */
  lemma {:induction false} CollectKeys(names: seq<string>, es: seq<Result<DaySchedule, HoursError>>, n: nat)
    requires n <= |names| == |es|
    ensures var r := Collect(names, es, n);
            r.Ok? ==> forall d :: d in r.value <==> d in names[..n]
  {
    if n > 0 {
      CollectKeys(names, es, n - 1);
      assert names[..n] == names[..n - 1] + [names[n - 1]];
    }
  }

  /**
   * With distinct names, each name of a successful loop holds its own
   * iteration's entry.
   */
  lemma {:induction false} CollectEntries(names: seq<string>, es: seq<Result<DaySchedule, HoursError>>, n: nat)
    requires n <= |names| == |es| && NoDup(names)
    ensures var r := Collect(names, es, n);
            r.Ok? ==> forall k :: 0 <= k < n ==> names[k] in r.value && es[k] == Ok(r.value[names[k]])
  {
    if n > 0 {
      CollectEntries(names, es, n - 1);
      var r := Collect(names, es, n);
      if r.Ok? {
        var m := Collect(names, es, n - 1).value;
        assert r.value == m[names[n - 1] := es[n - 1].value];
        forall k | 0 <= k < n - 1 ensures names[k] in r.value && es[k] == Ok(r.value[names[k]]) {
          assert names[k] != names[n - 1];
        }
      }
    }
  }

  /** When the first `n` iterations all succeed, so does the loop up to `n`. */
  lemma {:induction false} CollectSucceeds(names: seq<string>, es: seq<Result<DaySchedule, HoursError>>, n: nat)
    requires n <= |names| == |es|
    requires forall j :: 0 <= j < n ==> es[j].Ok?
    ensures Collect(names, es, n).Ok?
  {
    if n > 0 {
      CollectSucceeds(names, es, n - 1);
    }
  }

  /**
   * The loop stops at the first iteration that fails: if every iteration
   * before `k` succeeds and iteration `k` fails, the loop raises its error.
   */
  lemma {:induction false} CollectFirstFailure(names: seq<string>, es: seq<Result<DaySchedule, HoursError>>, k: nat, n: nat)
    requires k < n <= |names| == |es|
    requires forall j :: 0 <= j < k ==> es[j].Ok?
    requires es[k].Err?
    ensures Collect(names, es, n) == Err(es[k].error)
  {
    if n - 1 > k {
      CollectFirstFailure(names, es, k, n - 1);
    } else {
      CollectSucceeds(names, es, k);
    }
  }

  /** A successful loop had every iteration so far succeed. */
  lemma {:induction false} CollectPrefixOk(names: seq<string>, es: seq<Result<DaySchedule, HoursError>>, n: nat)
    requires n <= |names| == |es| && Collect(names, es, n).Ok?
    ensures forall k :: 0 <= k < n ==> es[k].Ok?
  {
    if n > 0 {
      CollectPrefixOk(names, es, n - 1);
    }
  }

  /** The loop's next iteration: its entry is added to the map, or its error ends the whole loop. */
  lemma CollectStep(names: seq<string>, es: seq<Result<DaySchedule, HoursError>>, i: nat, m: map<string, DaySchedule>)
    requires i < |names| == |es| && Collect(names, es, i) == Ok(m)
    ensures es[i].Ok? ==> Collect(names, es, i + 1) == Ok(m[names[i] := es[i].value])
    ensures es[i].Err? ==> Collect(names, es, |names|) == Err(es[i].error)
  {
    if es[i].Err? {
      CollectPrefixOk(names, es, i);
      CollectFirstFailure(names, es, i, |names|);
    }
  }

  /** With distinct names, each name of a successful loop holds its own iteration's entry. */
  lemma CollectAt(names: seq<string>, es: seq<Result<DaySchedule, HoursError>>, k: nat)
    requires k < |names| == |es| && NoDup(names) && Collect(names, es, |names|).Ok?
    ensures names[k] in Collect(names, es, |names|).value
    ensures es[k] == Ok(Collect(names, es, |names|).value[names[k]])
  {
    CollectEntries(names, es, |names|);
  }

  /** The loop raises exactly when some iteration fails. */
  lemma CollectFailsIff(names: seq<string>, es: seq<Result<DaySchedule, HoursError>>)
    requires |names| == |es|
    ensures Collect(names, es, |names|).Err? <==> exists k :: 0 <= k < |es| && es[k].Err?
  {
    if Collect(names, es, |names|).Ok? {
      CollectPrefixOk(names, es, |names|);
    } else {
      CollectErrorFrom(names, es, |names|);
    }
  }

  /** A failed loop raises the error of one of its iterations. */
  lemma {:induction false} CollectErrorFrom(names: seq<string>, es: seq<Result<DaySchedule, HoursError>>, n: nat)
    requires n <= |names| == |es| && Collect(names, es, n).Err?
    ensures exists k :: 0 <= k < n && es[k] == Err(Collect(names, es, n).error)
  {
    if Collect(names, es, n - 1).Err? {
      CollectErrorFrom(names, es, n - 1);
    } else {
      assert es[n - 1] == Err(Collect(names, es, n).error);
    }
  }

  /** What `parse_opening_hours(row)` returns or raises; a week it returns has exactly the seven days. */
  function Week(row: map<string, string>, today: Date): (r: Result<map<string, DaySchedule>, HoursError>)
    ensures r.Ok? ==> forall day :: day in r.value <==> day in Days
  {
    CollectKeys(Days, Entries(row, today), |Days|);
    assert Days[..|Days|] == Days;
    Collect(Days, Entries(row, today), |Days|)
  }

  /** The seven day names are distinct. */
  lemma DaysDistinct()
    ensures NoDup(Days)
  {
    assert Days[0][0] == 'M' && Days[1][0] == 'T' && Days[2][0] == 'W' && Days[3][0] == 'T';
    assert Days[4][0] == 'F' && Days[5][0] == 'S' && Days[6][0] == 'S';
    assert Days[1][1] == 'u' && Days[3][1] == 'h' && Days[5][1] == 'a' && Days[6][1] == 'u';
  }

  /** `parse_opening_hours(row)`, with `datetime.date.today()` passed in as `today`. */
  method ParseOpeningHours(row: map<string, string>, today: Date) returns (r: Result<map<string, DaySchedule>, HoursError>)
    ensures r == Week(row, today)
  {
    ghost var es := Entries(row, today);
    var openingHours: map<string, DaySchedule> := map[];
    var i := 0;
    while i < |Days|
      invariant 0 <= i <= |Days|
      invariant Collect(Days, es, i) == Ok(openingHours)
    {
      var day := Days[i];
      var hours: string;
      var isOpen: bool;
      if day in row {
        hours := row[day];
        isOpen := true;
      } else {
        hours := DefaultHours(day);
        isOpen := false;
      }
      CollectStep(Days, es, i, openingHours);
      assert es[i] == ParseDay(day, hours, isOpen, today);
      var parts := Split(hours, '-');
      if |parts| != 2 {
        return Err(RangeNotTwoParts(day, hours));
      }
      var start := ConvertToUtcDateTime(today, parts[0]);
      if start.Err? {
        return Err(TimeNotParsed(day, parts[0], start.error));
      }
      var end := ConvertToUtcDateTime(today, parts[1]);
      if end.Err? {
        return Err(TimeNotParsed(day, parts[1], end.error));
      }
      openingHours := openingHours[day := DaySchedule(start.value, end.value, isOpen)];
      i := i + 1;
    }
    return Ok(openingHours);
  }

  /** Day `k` of a successful parse holds day `k`'s entry. */
  lemma WeekAt(row: map<string, string>, today: Date, k: nat)
    requires k < |Days| && Week(row, today).Ok?
    ensures Days[k] in Week(row, today).value
    ensures DayEntry(row, Days[k], today) == Ok(Week(row, today).value[Days[k]])
  {
    DaysDistinct();
    CollectAt(Days, Entries(row, today), k);
  }

  /** In a successful parse each day is open iff the scanned map has it. */
  lemma WeekShape(row: map<string, string>, today: Date)
    requires Week(row, today).Ok?
    ensures forall day :: day in Week(row, today).value ==> Week(row, today).value[day].isOpen == (day in row)
  {
    var m := Week(row, today).value;
    forall day | day in m ensures m[day].isOpen == (day in row) {
      assert day in Days;
      var k :| 0 <= k < |Days| && Days[k] == day;
      WeekAt(row, today, k);
    }
  }

  /** The parse raises exactly when some day fails, and then with the error of the first day that fails. */
  lemma WeekFailsIffSomeDayFails(row: map<string, string>, today: Date)
    ensures Week(row, today).Err? <==> exists k :: 0 <= k < |Days| && DayEntry(row, Days[k], today).Err?
  {
    var es := Entries(row, today);
    CollectFailsIff(Days, es);
    assert forall k :: 0 <= k < |Days| ==> es[k] == DayEntry(row, Days[k], today);
  }

  /**
   * The parse stops at the first day that fails: when every day before `k`
   * succeeds and day `k` fails, it raises day `k`'s error.
   */
  lemma FirstFailureRaised(row: map<string, string>, today: Date, k: nat)
    requires k < |Days|
    requires forall j :: 0 <= j < k ==> DayEntry(row, Days[j], today).Ok?
    requires DayEntry(row, Days[k], today).Err?
    ensures Week(row, today) == Err(DayEntry(row, Days[k], today).error)
  {
    var es := Entries(row, today);
    assert forall j :: 0 <= j < k ==> es[j].Ok?;
    assert es[k].Err?;
    CollectFirstFailure(Days, es, k, |Days|);
  }

  /** Only the seven day names of the scanned map matter; other labels (`monday`, `Mon`) are ignored. */
  lemma OnlyDaysMatter(row1: map<string, string>, row2: map<string, string>, today: Date)
    requires forall k :: 0 <= k < |Days| ==> (Days[k] in row1 <==> Days[k] in row2)
    requires forall k :: 0 <= k < |Days| && Days[k] in row1 ==> row1[Days[k]] == row2[Days[k]]
    ensures Week(row1, today) == Week(row2, today)
  {
    var es1 := Entries(row1, today);
    var es2 := Entries(row2, today);
    forall k | 0 <= k < |Days| ensures es1[k] == es2[k] {
      assert RangeFor(row1, Days[k]) == RangeFor(row2, Days[k]);
    }
    assert es1 == es2;
  }

  /** `10 am`, the default opening time, reads as 10:00. */
  lemma TenAm(today: Date)
    ensures ConvertToUtcDateTime(today, "10 am") == Ok(Instant(today, 10, 0, 0))
  {
    assert IsTimeText("10 am", "", "10", None, " ", "am", AM);
    ConvertTimeText(today, "10 am", "", "10", None, " ", "am", AM);
  }

  /** `8 pm`, the default Sunday closing time, reads as 20:00. */
  lemma EightPm(today: Date)
    ensures ConvertToUtcDateTime(today, "8 pm") == Ok(Instant(today, 20, 0, 0))
  {
    assert IsTimeText("8 pm", "", "8", None, " ", "pm", PM);
    ConvertTimeText(today, "8 pm", "", "8", None, " ", "pm", PM);
  }

  /** A text with exactly one dash splits into the parts around it. */
  lemma SplitTwo(a: string, b: string)
    requires '-' !in a && '-' !in b
    ensures Split(a + "-" + b, '-') == [a, b]
  {
    assert a + "-" + b == a + ['-'] + b;
    SplitAround(a, b, '-');
    SplitNoSep(b, '-');
  }

  /** The default ranges split at their one dash. */
  lemma DefaultSplits()
    ensures Split("10 am-8:30 pm", '-') == ["10 am", "8:30 pm"]
    ensures Split("10 am-8 pm", '-') == ["10 am", "8 pm"]
  {
    SplitTwo("10 am", "8:30 pm");
    assert "10 am" + "-" + "8:30 pm" == "10 am-8:30 pm";
    SplitTwo("10 am", "8 pm");
    assert "10 am" + "-" + "8 pm" == "10 am-8 pm";
  }

  /** The entry of a day missing from the scanned map: closed, with the default times. */
  function ClosedDay(day: string, today: Date): DaySchedule {
    DaySchedule(Instant(today, 10, 0, 0), Instant(today, 20, if day == "Sunday" then 0 else 30, 0), false)
  }

  /** A day the scanned map lacks is closed, with the default times, and never fails. */
  lemma ClosedDayDefaults(row: map<string, string>, day: string, today: Date)
    requires day !in row
    ensures DayEntry(row, day, today) == Ok(ClosedDay(day, today))
  {
    TenAm(today);
    EightPm(today);
    HalfPastEightPm(today);
    DefaultSplits();
  }

  /** An empty scan gives the seven days, all closed with the default times. */
  lemma EmptyRowAllClosed(today: Date)
    ensures Week(map[], today).Ok?
    ensures forall k :: 0 <= k < |Days| ==>
              Days[k] in Week(map[], today).value && Week(map[], today).value[Days[k]] == ClosedDay(Days[k], today)
  {
    EmptyRowDays(today);
    WeekFailsIffSomeDayFails(map[], today);
    forall k | 0 <= k < |Days|
      ensures Days[k] in Week(map[], today).value && Week(map[], today).value[Days[k]] == ClosedDay(Days[k], today)
    {
      WeekAt(map[], today, k);
    }
  }

  lemma EmptyRowDays(today: Date)
    ensures forall j :: 0 <= j < |Days| ==> DayEntry(map[], Days[j], today) == Ok(ClosedDay(Days[j], today))
  {
    forall j | 0 <= j < |Days| ensures DayEntry(map[], Days[j], today) == Ok(ClosedDay(Days[j], today)) {
      ClosedDayDefaults(map[], Days[j], today);
    }
  }

  /** An open day's range `a-b` (one dash) reads as its two times, or raises the first failure. */
  lemma OpenDayEntry(row: map<string, string>, day: string, today: Date, a: string, b: string)
    requires day in row && row[day] == a + "-" + b && '-' !in a && '-' !in b
    ensures var s := ConvertToUtcDateTime(today, a);
            var e := ConvertToUtcDateTime(today, b);
            DayEntry(row, day, today) ==
              if s.Err? then Err(TimeNotParsed(day, a, s.error))
              else if e.Err? then Err(TimeNotParsed(day, b, e.error))
              else Ok(DaySchedule(s.value, e.value, true))
  {
    SplitTwo(a, b);
  }

  /** Every range the scanner yields splits into two parts, so scanned days never fail the split. */
  lemma ScannedRangesSplit(hoursString: string, day: string, today: Date)
    requires day in HoursScan.HoursDict(hoursString)
    ensures !DayEntry(HoursScan.HoursDict(hoursString), day, today).Err?
         || DayEntry(HoursScan.HoursDict(hoursString), day, today).error.TimeNotParsed?
  {
    HoursScan.RangesSplitInTwo(hoursString, day);
  }

  lemma NineAm(today: Date)
    ensures ConvertToUtcDateTime(today, "9 am") == Ok(Instant(today, 9, 0, 0))
  {
    assert IsTimeText("9 am", "", "9", None, " ", "am", AM);
    ConvertTimeText(today, "9 am", "", "9", None, " ", "am", AM);
  }

  lemma SixPm(today: Date)
    ensures ConvertToUtcDateTime(today, "6 pm") == Ok(Instant(today, 18, 0, 0))
  {
    assert IsTimeText("6 pm", "", "6", None, " ", "pm", PM);
    ConvertTimeText(today, "6 pm", "", "6", None, " ", "pm", PM);
  }

  /**
   * A scanned map holding one day of the week gives that day its parsed
   * entry and leaves the other six closed with the default times.
   */
  lemma OneOpenDay(row: map<string, string>, today: Date, i: nat)
    requires i < |Days| && row.Keys == {Days[i]} && DayEntry(row, Days[i], today).Ok?
    ensures Week(row, today).Ok?
    ensures Days[i] in Week(row, today).value
    ensures Week(row, today).value[Days[i]] == DayEntry(row, Days[i], today).value
    ensures forall k :: 0 <= k < |Days| && k != i ==>
              Days[k] in Week(row, today).value && Week(row, today).value[Days[k]] == ClosedDay(Days[k], today)
  {
    assert Week(row, today).Ok? by {
      OthersClosed(row, today, i);
      assert forall j :: 0 <= j < |Days| ==> DayEntry(row, Days[j], today).Ok?;
      WeekFailsIffSomeDayFails(row, today);
    }
    WeekAt(row, today, i);
    forall k | 0 <= k < |Days| && k != i
      ensures Days[k] in Week(row, today).value && Week(row, today).value[Days[k]] == ClosedDay(Days[k], today)
    {
      WeekAt(row, today, k);
      OtherClosed(row, today, i, k);
    }
  }

  lemma OthersClosed(row: map<string, string>, today: Date, i: nat)
    requires i < |Days| && row.Keys == {Days[i]}
    ensures forall k :: 0 <= k < |Days| && k != i ==> DayEntry(row, Days[k], today) == Ok(ClosedDay(Days[k], today))
  {
    forall k | 0 <= k < |Days| && k != i ensures DayEntry(row, Days[k], today) == Ok(ClosedDay(Days[k], today)) {
      OtherClosed(row, today, i, k);
    }
  }

  lemma OtherClosed(row: map<string, string>, today: Date, i: nat, k: nat)
    requires i < |Days| && row.Keys == {Days[i]} && k < |Days| && k != i
    ensures DayEntry(row, Days[k], today) == Ok(ClosedDay(Days[k], today))
  {
    DaysDistinct();
    ClosedDayDefaults(row, Days[k], today);
  }

  /** A week whose only scanned day is Monday, 9 am to 6 pm. */
  lemma MondayOnlyWeek(row: map<string, string>, today: Date)
    requires row == map["Monday" := "9 am-6 pm"]
    ensures var w := Week(row, today);
            && w.Ok? && "Monday" in w.value
            && w.value["Monday"] == DaySchedule(Instant(today, 9, 0, 0), Instant(today, 18, 0, 0), true)
            && forall k :: 1 <= k < |Days| ==> Days[k] in w.value && w.value[Days[k]] == ClosedDay(Days[k], today)
  {
    MondayNineToSix(row, today);
    assert row.Keys == {Days[0]};
    OneOpenDay(row, today, 0);
  }

  lemma MondayNineToSix(row: map<string, string>, today: Date)
    requires "Monday" in row && row["Monday"] == "9 am-6 pm"
    ensures DayEntry(row, "Monday", today) == Ok(DaySchedule(Instant(today, 9, 0, 0), Instant(today, 18, 0, 0), true))
  {
    NineAm(today);
    SixPm(today);
    assert "9 am" + "-" + "6 pm" == "9 am-6 pm";
    OpenDayEntry(row, "Monday", today, "9 am", "6 pm");
  }

  /** The pipeline on one scanned day: Monday 9:00 to 18:00, the other days closed. */
  lemma MondayPipeline(today: Date)
    ensures var w := Week(HoursScan.HoursDict("Monday: [9 am-6 pm]"), today);
            && w.Ok? && "Monday" in w.value
            && w.value["Monday"] == DaySchedule(Instant(today, 9, 0, 0), Instant(today, 18, 0, 0), true)
            && forall k :: 1 <= k < |Days| ==> Days[k] in w.value && w.value[Days[k]] == ClosedDay(Days[k], today)
  {
    HoursScan.MondayExample();
    MondayOnlyWeek(HoursScan.HoursDict("Monday: [9 am-6 pm]"), today);
  }

  /** A week whose Monday is `10am-8pm`: the first day already raises. */
  lemma NoBlankWeek(row: map<string, string>, today: Date)
    requires row == map["Monday" := "10am-8pm"]
    ensures Week(row, today).Err?
    ensures Week(row, today).error == TimeNotParsed("Monday", "10am", ConvertToUtcDateTime(today, "10am").error)
  {
    NoBlankRejected(today, "10am");
    assert "10am" + "-" + "8pm" == "10am-8pm";
    OpenDayEntry(row, "Monday", today, "10am", "8pm");
    FirstFailureRaised(row, today, 0);
  }

  /**
   * A range the scanner accepts can still make the parse raise: `10am` has no
   * blank before `am`, which the format `%I %p` requires.
   */
  lemma NoBlankPipelineRaises(today: Date)
    ensures var w := Week(HoursScan.HoursDict("Monday: [10am-8pm]"), today);
            w.Err? && w.error.TimeNotParsed? && w.error.day == "Monday" && w.error.text == "10am"
  {
    HoursScan.NoBlankExample();
    NoBlankWeek(HoursScan.HoursDict("Monday: [10am-8pm]"), today);
  }
}
