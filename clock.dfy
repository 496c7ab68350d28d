/// `convert_to_utc_datetime(date, time_str)` (extractor2.py, extractor.py, temp2.py):
/// `datetime.strptime(f"{date} {time_str}", f"%Y-%m-%d {fmt}")` with
/// `fmt = "%I:%M %p"` when `time_str` contains a colon and `"%I %p"` otherwise,
/// then `.replace(tzinfo=timezone.utc)`.
///
/// `strptime` turns the format into a regular expression: every space of the
/// format becomes `\s+`, `%I` becomes `1[0-2]|0[1-9]|[1-9]`, `%M` becomes
/// `[0-5]\d|\d`, `%p` becomes `am|pm` matched without regard to case; the
/// expression must match at the start and consume the whole string, otherwise
/// a ValueError is raised. The date prefix is `str(date)`, which always matches
/// `%Y-%m-%d` and reads back as `date`, so only the time part is scanned here.
/// Each field is scanned greedily: giving back a character to the next field
/// would leave a digit or a space where a colon, a space or a letter is needed,
/// so the backtracking matcher cannot succeed where the greedy scan fails.
module Clock {
  import opened Common

  /** A calendar date, passed in by the caller (the source uses `date.today()`). */
  datatype Date = Date(year: int, month: int, day: int)

  datatype Meridiem = AM | PM

  /** An aware datetime: calendar date, wall-clock time, and offset from UTC in minutes. */
  datatype Instant = Instant(date: Date, hour: nat, minute: nat, utcOffsetMinutes: int)

  /** The two ValueErrors `strptime` raises. */
  datatype TimeError = DoesNotMatchFormat | UnconvertedDataRemains

  /** A scanned field: its value and the position just after it. */
  datatype Scan = Scan(value: nat, next: nat)

  /** The end of the run of whitespace starting at `i` (`\s*`). */
  function SkipSpaces(s: string, i: nat): (j: nat)
    requires i <= |s|
    ensures i <= j <= |s|
    ensures j == |s| || !IsSpace(s[j])
    decreases |s| - i
  {
    if i < |s| && IsSpace(s[i]) then SkipSpaces(s, i + 1) else i
  }

  /** The hour numerals `%I` accepts: `1[0-2]`, `0[1-9]` or `[1-9]`. */
  predicate IsHourText(t: string) {
    || (|t| == 2 && t[0] == '1' && '0' <= t[1] <= '2')
    || (|t| == 2 && t[0] == '0' && '1' <= t[1] <= '9')
    || (|t| == 1 && '1' <= t[0] <= '9')
  }

  /** The minute numerals `%M` accepts: `[0-5]\d` or `\d`. */
  predicate IsMinuteText(t: string) {
    || (|t| == 2 && '0' <= t[0] <= '5' && IsDigit(t[1]))
    || (|t| == 1 && IsDigit(t[0]))
  }

  /** The value of a one- or two-digit numeral, digit by digit. */
  lemma SmallNumeral(t: string)
    requires 1 <= |t| <= 2 && AllDigits(t)
    ensures |t| == 1 ==> DecimalValue(t) == DigitValue(t[0])
    ensures |t| == 2 ==> DecimalValue(t) == 10 * DigitValue(t[0]) + DigitValue(t[1])
  {
    assert t[..|t| - 1][..0] == [];
    if |t| == 2 {
      assert t[..1][0] == t[0];
    }
  }

  /** The hour an `%I` numeral denotes, `int` of its digits: 1..12. */
  function HourValue(t: string): (h: nat)
    requires IsHourText(t)
    ensures 1 <= h <= 12 && h == DecimalValue(t)
  {
    SmallNumeral(t);
    if |t| == 1 then DigitValue(t[0]) else 10 * DigitValue(t[0]) + DigitValue(t[1])
  }

  /** The minute an `%M` numeral denotes, `int` of its digits: below 60. */
  function MinuteValue(t: string): (m: nat)
    requires IsMinuteText(t)
    ensures m < 60 && m == DecimalValue(t)
  {
    SmallNumeral(t);
    if |t| == 1 then DigitValue(t[0]) else 10 * DigitValue(t[0]) + DigitValue(t[1])
  }

  /** `%I`: `1[0-2]|0[1-9]|[1-9]`, alternatives tried in that order. */
  function HourField(s: string, i: nat): (r: Option<Scan>)
    requires i <= |s|
    ensures r.Some? ==> i < r.value.next <= |s| && 1 <= r.value.value <= 12
  {
    if i + 2 <= |s| && ((s[i] == '1' && '0' <= s[i + 1] <= '2') || (s[i] == '0' && '1' <= s[i + 1] <= '9')) then
      Some(Scan(10 * DigitValue(s[i]) + DigitValue(s[i + 1]), i + 2))
    else if i < |s| && '1' <= s[i] <= '9' then
      Some(Scan(DigitValue(s[i]), i + 1))
    else
      None
  }

  /** `%M`: `[0-5]\d|\d`. */
  function MinuteField(s: string, i: nat): (r: Option<Scan>)
    requires i <= |s|
    ensures r.Some? ==> i < r.value.next <= |s| && r.value.value < 60
  {
    if i + 2 <= |s| && '0' <= s[i] <= '5' && IsDigit(s[i + 1]) then
      Some(Scan(10 * DigitValue(s[i]) + DigitValue(s[i + 1]), i + 2))
    else if i < |s| && IsDigit(s[i]) then
      Some(Scan(DigitValue(s[i]), i + 1))
    else
      None
  }

  /** What `%I` reads is an hour numeral, and the hour is the one it denotes. */
  lemma HourFieldReads(s: string, i: nat)
    requires i <= |s| && HourField(s, i).Some?
    ensures var h := HourField(s, i).value;
            IsHourText(s[i..h.next]) && HourValue(s[i..h.next]) == h.value
  {
  }

  /** What `%M` reads is a minute numeral, and the minute is the one it denotes. */
  lemma MinuteFieldReads(s: string, i: nat)
    requires i <= |s| && MinuteField(s, i).Some?
    ensures var m := MinuteField(s, i).value;
            IsMinuteText(s[i..m.next]) && MinuteValue(s[i..m.next]) == m.value
  {
  }

  predicate IsA(c: char) { c == 'a' || c == 'A' }
  predicate IsP(c: char) { c == 'p' || c == 'P' }
  predicate IsM(c: char) { c == 'm' || c == 'M' }

  /** The spellings of `am` and `pm` that `%p` accepts. */
  predicate IsMeridiemText(t: string, p: Meridiem) {
    |t| == 2 && IsM(t[1]) && (if p == AM then IsA(t[0]) else IsP(t[0]))
  }

  /** `%p`: `am|pm`, case-insensitively; returns the meridiem and the position after it. */
  function MeridiemField(s: string, i: nat): (r: Option<(Meridiem, nat)>)
    requires i <= |s|
    ensures r.Some? ==> r.value.1 == i + 2 <= |s| && IsMeridiemText(s[i..i + 2], r.value.0)
    ensures r.None? ==> i + 2 > |s| || (!IsMeridiemText(s[i..i + 2], AM) && !IsMeridiemText(s[i..i + 2], PM))
  {
    if i + 2 <= |s| && IsA(s[i]) && IsM(s[i + 1]) then Some((AM, i + 2))
    else if i + 2 <= |s| && IsP(s[i]) && IsM(s[i + 1]) then Some((PM, i + 2))
    else None
  }

  /** The time fields of a successful parse: 12-hour clock hour, minute, meridiem. */
  datatype ClockFields = ClockFields(hour12: nat, minute: nat, meridiem: Meridiem)

  /**
   * The time part of the strptime match: `\s+` (the separator of the format,
   * the first blank of which is supplied by the f-string, so the time text may
   * start with zero or more blanks), `%I`, then `:%M` when `withMinutes`, then
   * `\s+`, `%p`, and nothing after.
   */
  function ParseClock(s: string, withMinutes: bool): (r: Result<ClockFields, TimeError>)
    ensures r.Ok? ==> 1 <= r.value.hour12 <= 12 && r.value.minute < 60
    ensures r.Ok? && !withMinutes ==> r.value.minute == 0
  {
    var i0 := SkipSpaces(s, 0);
    match HourField(s, i0)
    case None => Err(DoesNotMatchFormat)
    case Some(h) =>
      var minutes :=
        if !withMinutes then Some(Scan(0, h.next))
        else if h.next < |s| && s[h.next] == ':' then MinuteField(s, h.next + 1)
        else None;
      match minutes
      case None => Err(DoesNotMatchFormat)
      case Some(m) =>
        var j := SkipSpaces(s, m.next);
        if j == m.next then Err(DoesNotMatchFormat)
        else
          match MeridiemField(s, j)
          case None => Err(DoesNotMatchFormat)
          case Some(p) =>
            if p.1 != |s| then Err(UnconvertedDataRemains)
            else Ok(ClockFields(h.value, m.value, p.0))
  }

  /** The `%I`/`%p` rule of strptime: 12 am is hour 0, 12 pm is hour 12, other pm hours add 12. */
  function To24Hour(hour12: nat, p: Meridiem): (h: nat)
    requires 1 <= hour12 <= 12
    ensures h < 24
    ensures p == AM <==> h < 12
  {
    match p
    case AM => if hour12 == 12 then 0 else hour12
    case PM => if hour12 == 12 then 12 else hour12 + 12
  }

  /** The 12-hour reading of a 24-hour clock hour, as `strftime("%I %p")` writes it. */
  function To12Hour(h: nat): (r: (nat, Meridiem))
    requires h < 24
    ensures 1 <= r.0 <= 12
  {
    if h == 0 then (12, AM)
    else if h < 12 then (h, AM)
    else if h == 12 then (12, PM)
    else (h - 12, PM)
  }

  /** The two clocks correspond one to one. */
  lemma To24HourBijective(hour12: nat, p: Meridiem, h: nat)
    requires 1 <= hour12 <= 12 && h < 24
    ensures To24Hour(hour12, p) == h <==> To12Hour(h) == (hour12, p)
  {
  }

  /** The format `convert_to_utc_datetime` chooses: with minutes iff the text has a colon. */
  predicate HasMinutes(timeStr: string) {
    ':' in timeStr
  }

  /** `convert_to_utc_datetime(date, time_str)`; the raised ValueError becomes `Err`. */
  function ConvertToUtcDateTime(date: Date, timeStr: string): (r: Result<Instant, TimeError>)
    ensures r.Ok? ==> r.value.date == date && r.value.utcOffsetMinutes == 0
    ensures r.Ok? ==> r.value.hour < 24 && r.value.minute < 60
    ensures r.Ok? && !HasMinutes(timeStr) ==> r.value.minute == 0
  {
    match ParseClock(timeStr, HasMinutes(timeStr))
    case Err(e) => Err(e)
    case Ok(f) => Ok(Instant(date, To24Hour(f.hour12, f.meridiem), f.minute, 0))
  }

  predicate AllSpaces(s: string) {
    forall i :: 0 <= i < |s| ==> IsSpace(s[i])
  }

  /** The two-digit rendering of a minute, as `%M` writes it; `%M` reads it back. */
  function TwoDigits(m: nat): (r: string)
    requires m < 60
    ensures IsMinuteText(r) && |r| == 2 && MinuteValue(r) == m
  {
    [DigitChar(m / 10), DigitChar(m % 10)]
  }

  /**
   * A time text of the accepted grammar, from its parts: leading blanks, the
   * hour numeral, `:` and the minute numeral when there is one, the blanks
   * before the meridiem, and the meridiem.
   */
  function TimeText(lead: string, hour: string, minute: Option<string>, sep: string, mer: string): string {
    lead + hour + (if minute.Some? then ":" + minute.value else "") + sep + mer
  }

  /**
   * `s` is the time text with these parts, each of the shape `strptime`
   * accepts: blanks, an `%I` numeral, optionally `:` and an `%M` numeral, at
   * least one blank, and `am`/`pm` in any case.
   */
  predicate IsTimeText(s: string, lead: string, hour: string, minute: Option<string>, sep: string, mer: string, p: Meridiem) {
    && AllSpaces(lead) && IsHourText(hour) && (minute.Some? ==> IsMinuteText(minute.value))
    && AllSpaces(sep) && |sep| >= 1 && IsMeridiemText(mer, p)
    && s == TimeText(lead, hour, minute, sep, mer)
  }

  /** The minute a time text denotes: its `%M` numeral, or 0 without one. */
  function MinuteOf(minute: Option<string>): (m: nat)
    requires minute.Some? ==> IsMinuteText(minute.value)
    ensures m < 60
    ensures minute.Some? ==> m == DecimalValue(minute.value)
  {
    if minute.Some? then MinuteValue(minute.value) else 0
  }

  /** The steps of `ParseClock`, each established on its own. */
  lemma ParseClockSteps(s: string, withMinutes: bool, i0: nat, h: Scan, m: Scan, j: nat, p: Meridiem)
    requires SkipSpaces(s, 0) == i0 && HourField(s, i0) == Some(h)
    requires withMinutes ==> h.next < |s| && s[h.next] == ':' && MinuteField(s, h.next + 1) == Some(m)
    requires !withMinutes ==> m == Scan(0, h.next)
    requires m.next <= |s| && SkipSpaces(s, m.next) == j && j > m.next
    requires MeridiemField(s, j) == Some((p, |s|))
    ensures ParseClock(s, withMinutes) == Ok(ClockFields(h.value, m.value, p))
  {
  }

  /**
   * Every text of the grammar is accepted, and read as the 24-hour time its
   * numerals and meridiem denote, on the given date, in UTC.
   */
  lemma ConvertTimeText(date: Date, s: string, lead: string, hour: string, minute: Option<string>, sep: string, mer: string, p: Meridiem)
    requires IsTimeText(s, lead, hour, minute, sep, mer, p)
    ensures ConvertToUtcDateTime(date, s) == Ok(Instant(date, To24Hour(HourValue(hour), p), MinuteOf(minute), 0))
  {
    TimeTextParsed(s, lead, hour, minute, sep, mer, p);
  }

  /**
   * Conversely, every text that converts is a text of the grammar, and the
   * result is the time its numerals and meridiem denote.
   */
  lemma ConvertedIsTimeText(date: Date, s: string)
    requires ConvertToUtcDateTime(date, s).Ok?
    ensures exists lead, hour, minute, sep, mer, p :: IsTimeText(s, lead, hour, minute, sep, mer, p)
              && ConvertToUtcDateTime(date, s) == Ok(Instant(date, To24Hour(HourValue(hour), p), MinuteOf(minute), 0))
  {
    var lead, hour, minute, sep, mer, p := ParsedParts(s, HasMinutes(s));
    assert IsTimeText(s, lead, hour, minute, sep, mer, p);
  }

  /** What `ParseClock` accepts is a time text, read as the hour, minute and meridiem it denotes. */
  lemma ParsedParts(s: string, withMinutes: bool) returns (lead: string, hour: string, minute: Option<string>, sep: string, mer: string, p: Meridiem)
    requires ParseClock(s, withMinutes).Ok?
    ensures IsTimeText(s, lead, hour, minute, sep, mer, p)
    ensures ParseClock(s, withMinutes).value == ClockFields(HourValue(hour), MinuteOf(minute), p)
  {
    var i0, h, m, j;
    i0, h, m, j, p := ParseClockOk(s, withMinutes);
    lead, hour, sep, mer := s[..i0], s[i0..h.next], s[m.next..j], s[j..];
    minute := if withMinutes then Some(s[h.next + 1..m.next]) else None;
    assert AllSpaces(lead) by {
      BlanksRead(s, 0, i0);
      assert s[0..i0] == lead;
    }
    assert AllSpaces(sep) by { BlanksRead(s, m.next, j); }
    assert IsHourText(hour) && HourValue(hour) == h.value by { HourFieldReads(s, i0); }
    assert (minute.Some? ==> IsMinuteText(minute.value)) && MinuteOf(minute) == m.value by {
      if withMinutes {
        MinuteFieldReads(s, h.next + 1);
      }
    }
    assert IsMeridiemText(mer, p) by { assert mer == s[j..j + 2]; }
    assert s == TimeText(lead, hour, minute, sep, mer) by { SlicesJoin(s, i0, h.next, withMinutes, m.next, j); }
  }

  /** The steps a successful `ParseClock` went through. */
  lemma ParseClockOk(s: string, withMinutes: bool) returns (i0: nat, h: Scan, m: Scan, j: nat, p: Meridiem)
    requires ParseClock(s, withMinutes).Ok?
    ensures SkipSpaces(s, 0) == i0 && HourField(s, i0) == Some(h)
    ensures withMinutes ==> h.next < |s| && s[h.next] == ':' && MinuteField(s, h.next + 1) == Some(m)
    ensures !withMinutes ==> m == Scan(0, h.next)
    ensures m.next < j <= |s| && SkipSpaces(s, m.next) == j
    ensures MeridiemField(s, j) == Some((p, |s|))
    ensures ParseClock(s, withMinutes) == Ok(ClockFields(h.value, m.value, p))
  {
    i0 := SkipSpaces(s, 0);
    h := HourField(s, i0).value;
    m := if withMinutes then MinuteField(s, h.next + 1).value else Scan(0, h.next);
    j := SkipSpaces(s, m.next);
    p := MeridiemField(s, j).value.0;
  }

  /** The blanks `SkipSpaces` ran over form a run of blanks. */
  lemma {:induction false} BlanksRead(s: string, i: nat, j: nat)
    requires i <= |s| && SkipSpaces(s, i) == j
    ensures AllSpaces(s[i..j])
    decreases |s| - i
  {
    if i < j {
      BlanksRead(s, i + 1, j);
      forall k | 0 <= k < j - i ensures IsSpace(s[i..j][k]) {
        if k > 0 {
          assert s[i..j][k] == s[i + 1..j][k - 1];
        }
      }
    }
  }

  /** A text cut at its field boundaries is the concatenation of the pieces. */
  lemma SlicesJoin(s: string, a: nat, b: nat, withMinutes: bool, c: nat, d: nat)
    requires a <= b <= c <= d <= |s|
    requires withMinutes ==> b < c && s[b] == ':'
    requires !withMinutes ==> b == c
    ensures s == TimeText(s[..a], s[a..b], if withMinutes then Some(s[b + 1..c]) else None, s[c..d], s[d..])
  {
    var ms := if withMinutes then ":" + s[b + 1..c] else "";
    assert s[..c] == s[..a] + s[a..b] + ms by {
      assert s[..b] == s[..a] + s[a..b];
      if withMinutes {
        assert s[b..c] == ":" + s[b + 1..c];
      }
      assert s[..c] == s[..b] + s[b..c];
    }
    assert s[..d] == s[..c] + s[c..d];
    assert s == s[..d] + s[d..];
  }

  /** `ParseClock` reads back the fields of a time text, and the colon test picks the right format. */
  lemma TimeTextParsed(s: string, lead: string, hour: string, minute: Option<string>, sep: string, mer: string, p: Meridiem)
    requires IsTimeText(s, lead, hour, minute, sep, mer, p)
    ensures HasMinutes(s) == minute.Some?
    ensures ParseClock(s, minute.Some?) == Ok(ClockFields(HourValue(hour), MinuteOf(minute), p))
  {
    var c := |lead| + |hour| + (if minute.Some? then 1 + |minute.value| else 0);
    TimeTextLaidOut(s, lead, hour, minute, sep, mer, p);
    ParseLaidOut(s, |lead|, hour, minute, c, c + |sep|, p);
  }

  /** Where each part of `TimeText` lies. */
  lemma TimeTextLayout(s: string, lead: string, hour: string, minute: Option<string>, sep: string, mer: string)
    requires s == TimeText(lead, hour, minute, sep, mer)
    ensures var ms := if minute.Some? then ":" + minute.value else "";
            var b := |lead| + |hour|;
            var c := b + |ms|;
            var d := c + |sep|;
            && |s| == d + |mer|
            && s[..|lead|] == lead && s[|lead|..b] == hour && s[b..c] == ms && s[c..d] == sep && s[d..] == mer
  {
    var ms := if minute.Some? then ":" + minute.value else "";
    var s1 := lead + hour;
    var s2 := s1 + ms;
    var s3 := s2 + sep;
    assert s == s3 + mer;
    assert s[..|s3|] == s3 && s[|s3|..] == mer;
    assert s3[..|s2|] == s2 && s3[|s2|..] == sep;
    assert s2[..|s1|] == s1 && s2[|s1|..] == ms;
    assert s1[..|lead|] == lead && s1[|lead|..] == hour;
  }

  /** A slice equal to a run of blanks is blank at every position. */
  lemma BlankSlice(s: string, i: nat, j: nat, g: string)
    requires i <= j <= |s| && s[i..j] == g && AllSpaces(g)
    ensures forall k :: i <= k < j ==> IsSpace(s[k])
  {
    forall k | i <= k < j ensures IsSpace(s[k]) { assert s[k] == g[k - i]; }
  }

  /** A time text is laid out as `ClockLaidOut` describes, and has a colon exactly when it has minutes. */
  lemma TimeTextLaidOut(s: string, lead: string, hour: string, minute: Option<string>, sep: string, mer: string, p: Meridiem)
    requires IsTimeText(s, lead, hour, minute, sep, mer, p)
    ensures HasMinutes(s) == minute.Some?
    ensures var c := |lead| + |hour| + (if minute.Some? then 1 + |minute.value| else 0);
            ClockLaidOut(s, |lead|, hour, minute, c, c + |sep|, p)
  {
    TimeTextLayout(s, lead, hour, minute, sep, mer);
    var ms := if minute.Some? then ":" + minute.value else "";
    var a := |lead|;
    var b := a + |hour|;
    var c := b + |ms|;
    var d := c + |sep|;
    assert s[0..a] == lead;
    BlankSlice(s, 0, a, lead);
    BlankSlice(s, c, d, sep);
    if minute.Some? {
      assert s[b] == ms[0];
      assert s[b + 1..c] == ms[1..];
      assert HasMinutes(s);
    } else {
      assert b == c;
      NoColon(s, a, b, d);
    }
  }

  lemma NoColon(s: string, a: nat, b: nat, d: nat)
    requires a <= b <= d <= |s|
    requires forall k :: 0 <= k < a ==> IsSpace(s[k])
    requires IsHourText(s[a..b])
    requires forall k :: b <= k < d ==> IsSpace(s[k])
    requires |s| == d + 2 && (IsA(s[d]) || IsP(s[d])) && IsM(s[d + 1])
    ensures !HasMinutes(s)
  {
    forall k | 0 <= k < |s| ensures s[k] != ':' {
      if a <= k < b { assert s[k] == s[a..b][k - a]; }
    }
  }

  /**
   * The time text `s` laid out as the grammar reads it: blanks up to `a`, the
   * hour numeral, `:` and the minute numeral when there is one, blanks from
   * `c` to `d`, and `am`/`pm` in any case as the last two characters.
   */
  predicate ClockLaidOut(s: string, a: nat, hour: string, minute: Option<string>, c: nat, d: nat, p: Meridiem) {
    var b := a + |hour|;
    && IsHourText(hour) && (minute.Some? ==> IsMinuteText(minute.value))
    && b + (if minute.Some? then 1 + |minute.value| else 0) == c < d && |s| == d + 2
    && (forall k :: 0 <= k < a ==> IsSpace(s[k]))
    && s[a..b] == hour
    && (minute.Some? ==> s[b] == ':' && s[b + 1..c] == minute.value)
    && (forall k :: c <= k < d ==> IsSpace(s[k]))
    && IsMeridiemText(s[d..], p)
  }

  /** `ParseClock` on a text whose parts lie at the given positions. */
  lemma ParseLaidOut(s: string, a: nat, hour: string, minute: Option<string>, c: nat, d: nat, p: Meridiem)
    requires ClockLaidOut(s, a, hour, minute, c, d, p)
    ensures ParseClock(s, minute.Some?) == Ok(ClockFields(HourValue(hour), MinuteOf(minute), p))
  {
    var b := a + |hour|;
    var m := if minute.Some? then Scan(MinuteValue(minute.value), c) else Scan(0, b);
    assert SkipSpaces(s, 0) == a by {
      assert s[a] == hour[0];
      SkipSpacesTo(s, 0, a);
    }
    assert HourField(s, a) == Some(Scan(HourValue(hour), b)) by {
      assert IsSpace(s[c]);
      assert s[b] == ':' || IsSpace(s[b]);
      HourRead(s, a, hour);
    }
    assert minute.Some? ==> MinuteField(s, b + 1) == Some(m) by {
      if minute.Some? {
        assert IsSpace(s[c]);
        MinuteRead(s, b + 1, minute.value);
      }
    }
    assert MeridiemField(s, d) == Some((p, |s|)) by { MeridiemRead(s, d, p); }
    assert SkipSpaces(s, c) == d by { SkipSpacesTo(s, c, d); }
    ParseClockSteps(s, minute.Some?, a, Scan(HourValue(hour), b), m, d, p);
  }

  /** An `%I` numeral followed by `:` or a blank is read back by `%I`. */
  lemma HourRead(s: string, a: nat, hour: string)
    requires IsHourText(hour)
    requires a + |hour| < |s| && s[a..a + |hour|] == hour
    requires s[a + |hour|] == ':' || IsSpace(s[a + |hour|])
    ensures HourField(s, a) == Some(Scan(HourValue(hour), a + |hour|))
  {
    assert s[a] == hour[0];
    if |hour| == 2 {
      assert s[a + 1] == hour[1];
    }
  }

  /** An `%M` numeral followed by a blank is read back by `%M`. */
  lemma MinuteRead(s: string, i: nat, minute: string)
    requires IsMinuteText(minute)
    requires i + |minute| < |s| && s[i..i + |minute|] == minute && IsSpace(s[i + |minute|])
    ensures MinuteField(s, i) == Some(Scan(MinuteValue(minute), i + |minute|))
  {
    assert s[i] == minute[0];
    if |minute| == 2 {
      assert s[i + 1] == minute[1];
    }
  }

  /** `am`/`pm` in any case, ending the text, is read by `%p`. */
  lemma MeridiemRead(s: string, d: nat, p: Meridiem)
    requires d <= |s| && IsMeridiemText(s[d..], p)
    ensures MeridiemField(s, d) == Some((p, |s|))
  {
    assert s[d] == s[d..][0] && s[d + 1] == s[d..][1];
  }

  lemma {:induction false} SkipSpacesTo(s: string, i: nat, j: nat)
    requires i <= j < |s|
    requires forall k :: i <= k < j ==> IsSpace(s[k])
    requires !IsSpace(s[j])
    ensures SkipSpaces(s, i) == j
    decreases j - i
  {
    if i < j {
      SkipSpacesTo(s, i + 1, j);
    }
  }

  /**
   * `%p` must follow at least one blank, so a time text without any blank,
   * such as `10am` or `8:30pm`, is always rejected.
   */
  lemma NoBlankRejected(date: Date, timeStr: string)
    requires forall k :: 0 <= k < |timeStr| ==> !IsSpace(timeStr[k])
    ensures ConvertToUtcDateTime(date, timeStr).Err?
  {
  }

  /** `str` of an hour 1..12 is an `%I` numeral of that hour. */
  lemma HourNumeral(n: nat)
    requires 1 <= n <= 12
    ensures IsHourText(NatToDecimal(n)) && HourValue(NatToDecimal(n)) == n
  {
    if n >= 10 {
      assert NatToDecimal(n / 10) == ['1'];
    }
  }

  /** A parsed time text reads back from its canonical rendering `h:mm am|pm`. */
  lemma {:induction false} CanonicalForm(date: Date, timeStr: string)
    requires ConvertToUtcDateTime(date, timeStr).Ok?
    ensures var t := ConvertToUtcDateTime(date, timeStr).value;
            var (h12, p) := To12Hour(t.hour);
            ConvertToUtcDateTime(date, TimeText("", NatToDecimal(h12), Some(TwoDigits(t.minute)), " ", if p == AM then "am" else "pm")) == Ok(t)
  {
    var t := ConvertToUtcDateTime(date, timeStr).value;
    var (h12, p) := To12Hour(t.hour);
    var f := ParseClock(timeStr, HasMinutes(timeStr)).value;
    To24HourBijective(f.hour12, f.meridiem, t.hour);
    assert (h12, p) == (f.hour12, f.meridiem);
    HourNumeral(h12);
    var mer := if p == AM then "am" else "pm";
    var s := TimeText("", NatToDecimal(h12), Some(TwoDigits(t.minute)), " ", mer);
    assert IsTimeText(s, "", NatToDecimal(h12), Some(TwoDigits(t.minute)), " ", mer, p);
    ConvertTimeText(date, s, "", NatToDecimal(h12), Some(TwoDigits(t.minute)), " ", mer, p);
  }

  /** The two examples of temp2.py: `11 am` is 11:00 and `8:30 pm` is 20:30. */
  lemma ElevenAm(date: Date)
    ensures ConvertToUtcDateTime(date, "11 am") == Ok(Instant(date, 11, 0, 0))
  {
    assert IsTimeText("11 am", "", "11", None, " ", "am", AM);
    ConvertTimeText(date, "11 am", "", "11", None, " ", "am", AM);
  }

  lemma HalfPastEightPm(date: Date)
    ensures ConvertToUtcDateTime(date, "8:30 pm") == Ok(Instant(date, 20, 30, 0))
  {
    assert IsTimeText("8:30 pm", "", "8", Some("30"), " ", "pm", PM);
    ConvertTimeText(date, "8:30 pm", "", "8", Some("30"), " ", "pm", PM);
  }

  /** A zero-padded hour and a one-digit minute are accepted: `08:5 pm` is 20:05. */
  lemma PaddedHourShortMinute(date: Date)
    ensures ConvertToUtcDateTime(date, "08:5 pm") == Ok(Instant(date, 20, 5, 0))
  {
    assert IsTimeText("08:5 pm", "", "08", Some("5"), " ", "pm", PM);
    ConvertTimeText(date, "08:5 pm", "", "08", Some("5"), " ", "pm", PM);
  }

  /** 12 am is midnight. */
  lemma Midnight(date: Date)
    ensures ConvertToUtcDateTime(date, "12 am") == Ok(Instant(date, 0, 0, 0))
  {
    assert IsTimeText("12 am", "", "12", None, " ", "am", AM);
    ConvertTimeText(date, "12 am", "", "12", None, " ", "am", AM);
  }

  /** 12 pm is noon. */
  lemma Noon(date: Date)
    ensures ConvertToUtcDateTime(date, "12 pm") == Ok(Instant(date, 12, 0, 0))
  {
    assert IsTimeText("12 pm", "", "12", None, " ", "pm", PM);
    ConvertTimeText(date, "12 pm", "", "12", None, " ", "pm", PM);
  }

  /** An hour outside 1..12 raises. */
  lemma HourOutOfRange(date: Date)
    ensures ConvertToUtcDateTime(date, "13 pm") == Err(DoesNotMatchFormat)
    ensures ConvertToUtcDateTime(date, "0 am") == Err(DoesNotMatchFormat)
  {
    assert !HasMinutes("13 pm");
    assert !HasMinutes("0 am");
  }

  /** Text after the meridiem raises. */
  lemma TrailingData(date: Date)
    ensures ConvertToUtcDateTime(date, "8:30 pm x") == Err(UnconvertedDataRemains)
  {
    var s := "8:30 pm x";
    assert HasMinutes(s) by { assert s[1] == ':'; }
    assert SkipSpaces(s, 0) == 0;
    assert HourField(s, 0) == Some(Scan(8, 1));
    assert MinuteField(s, 2) == Some(Scan(30, 4));
    assert SkipSpaces(s, 4) == 5 by { SkipSpacesTo(s, 4, 5); }
    assert MeridiemField(s, 5) == Some((PM, 7));
  }

  /** A missing meridiem raises. */
  lemma MissingMeridiem(date: Date)
    ensures ConvertToUtcDateTime(date, "8:30") == Err(DoesNotMatchFormat)
  {
    var s := "8:30";
    assert HasMinutes(s) by { assert s[1] == ':'; }
    assert SkipSpaces(s, 0) == 0;
    assert HourField(s, 0) == Some(Scan(8, 1));
    assert MinuteField(s, 2) == Some(Scan(30, 4));
  }
}
