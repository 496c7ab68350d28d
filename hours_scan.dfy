/// `convert_hours_string_to_dict(hours_string)` (extractor2.py:296-316,
/// extractor.py:234-254): every U+202F becomes a space, then
/// `re.findall(r"(\w+): \[([\d:]+ ?[ap]m-[\d:]+ ?[ap]m)\]", s)` collects
/// (day, range) pairs left to right and a dict comprehension turns them into
/// a map in which a repeated day keeps its last range.
///
/// The match at a given start is unique: `\w+`, `[\d:]+` and ` ?` are followed
/// by a character their own class excludes (`:`, a space or `[ap]`, `[ap]`),
/// so giving characters back never lets the rest match. Each match is therefore
/// computed by a greedy scan, and `findall` tries successive starts, resuming
/// after each match.
module HoursScan {
  import opened Common

  const NarrowNoBreakSpace: char := '\U{202F}'

  /** `hours_string.replace("\u202f", " ")`: narrow no-break spaces become plain spaces. */
  function NormalizeSpaces(s: string): (r: string)
    ensures |r| == |s| && NarrowNoBreakSpace !in r
    ensures forall i :: 0 <= i < |s| && s[i] != NarrowNoBreakSpace ==> r[i] == s[i]
  {
    ReplaceChar(s, NarrowNoBreakSpace, ' ')
  }

  predicate IsTimeChar(c: char) { IsDigit(c) || c == ':' }

  predicate AllTimeChars(u: string) {
    forall k :: 0 <= k < |u| ==> IsTimeChar(u[k])
  }

  /** `\w+` as a whole string */
  predicate IsDayLabel(t: string) {
    |t| >= 1 && forall k :: 0 <= k < |t| ==> IsWordChar(t[k])
  }

  /** A string matched by `[\d:]+ ?[ap]m`. */
  predicate IsTimeToken(t: string) {
    |t| >= 3 && t[|t| - 1] == 'm' && (t[|t| - 2] == 'a' || t[|t| - 2] == 'p')
    && var body := t[..|t| - 2];
       (AllTimeChars(body) || (|body| >= 2 && body[|body| - 1] == ' ' && AllTimeChars(body[..|body| - 1])))
  }

  /** A string matched by `[\d:]+ ?[ap]m-[\d:]+ ?[ap]m`: one dash between two time tokens. */
  predicate IsRange(v: string) {
    CountChar(v, '-') == 1 && IsTimeToken(Split(v, '-')[0]) && IsTimeToken(Split(v, '-')[1])
  }

  /** The end of the run of `\w` starting at `i`. */
  function WordRunEnd(s: string, i: nat): (j: nat)
    requires i <= |s|
    ensures i <= j <= |s|
    ensures j == |s| || !IsWordChar(s[j])
    decreases |s| - i
  {
    if i < |s| && IsWordChar(s[i]) then WordRunEnd(s, i + 1) else i
  }

  /** Everything the run covers is `\w`. */
  lemma {:induction false} WordRunWord(s: string, i: nat)
    requires i <= |s|
    ensures forall k :: i <= k < WordRunEnd(s, i) ==> IsWordChar(s[k])
    decreases |s| - i
  {
    if i < |s| && IsWordChar(s[i]) { WordRunWord(s, i + 1); }
  }

  /** The end of the run of `[\d:]` starting at `i`. */
  function TimeCharsEnd(s: string, i: nat): (j: nat)
    requires i <= |s|
    ensures i <= j <= |s|
    ensures j == |s| || !IsTimeChar(s[j])
    decreases |s| - i
  {
    if i < |s| && IsTimeChar(s[i]) then TimeCharsEnd(s, i + 1) else i
  }

  /** Everything the run covers is `[\d:]`. */
  lemma {:induction false} TimeCharsRun(s: string, i: nat)
    requires i <= |s|
    ensures AllTimeChars(s[i..TimeCharsEnd(s, i)])
    decreases |s| - i
  {
    if i < |s| && IsTimeChar(s[i]) {
      TimeCharsRun(s, i + 1);
      var j := TimeCharsEnd(s, i);
      assert s[i..j] == [s[i]] + s[i + 1..j];
    }
  }

  /** `[\d:]+ ?[ap]m` matched at `i`: the position after it. */
  function TimeAt(s: string, i: nat): (r: Option<nat>)
    requires i <= |s|
    ensures r.Some? ==> i < r.value <= |s|
  {
    var j := TimeCharsEnd(s, i);
    if j == i then None
    else
      var k := if j < |s| && s[j] == ' ' then j + 1 else j;
      if k + 2 <= |s| && (s[k] == 'a' || s[k] == 'p') && s[k + 1] == 'm' then Some(k + 2)
      else None
  }

  /** What `TimeAt` matches is a time token. */
  lemma TimeAtToken(s: string, i: nat)
    requires i <= |s| && TimeAt(s, i).Some?
    ensures IsTimeToken(s[i..TimeAt(s, i).value])
  {
    var j := TimeCharsEnd(s, i);
    var k := if j < |s| && s[j] == ' ' then j + 1 else j;
    TimeCharsRun(s, i);
    var t := s[i..k + 2];
    assert t[..|t| - 2] == s[i..k];
    if k == j + 1 {
      assert s[i..k][..|s[i..k]| - 1] == s[i..j];
    }
  }

  lemma TimeTokenNoDash(t: string)
    requires IsTimeToken(t)
    ensures '-' !in t
  {
    var body := t[..|t| - 2];
    forall k | 0 <= k < |t| ensures t[k] != '-' {
      if k < |body| {
        assert t[k] == body[k];
        if !AllTimeChars(body) {
          if k < |body| - 1 { assert body[k] == body[..|body| - 1][k]; }
        }
      }
    }
  }

  /** Two time tokens joined by a dash form a range. */
  lemma RangeOfTokens(a: string, b: string)
    requires IsTimeToken(a) && IsTimeToken(b)
    ensures IsRange(a + "-" + b)
  {
    TimeTokenNoDash(a);
    TimeTokenNoDash(b);
    SplitAround(a, b, '-');
    SplitNoSep(b, '-');
    CountCharAppend(a + "-", b, '-');
    CountCharAppend(a, "-", '-');
    CountCharAbsent(a, '-');
    CountCharAbsent(b, '-');
  }

  /** One `(day, range)` pair found by `findall`, with the span of its match. */
  datatype Segment = Segment(day: string, range: string, start: nat, end: nat)

  /** The whole text of a match. */
  function SegmentText(day: string, range: string): string {
    day + ": [" + range + "]"
  }

  /** The pattern matched at `i`, if it matches there. */
  function SegmentAt(s: string, i: nat): (r: Option<Segment>)
    requires i <= |s|
    ensures r.Some? ==> r.value.start == i && i < r.value.end <= |s|
  {
    var j := WordRunEnd(s, i);
    if j == i || j + 3 > |s| || s[j..j + 3] != ": [" then None
    else
      match TimeAt(s, j + 3)
      case None => None
      case Some(t1) =>
        if t1 < |s| && s[t1] == '-' then
          match TimeAt(s, t1 + 1)
          case None => None
          case Some(t2) =>
            if t2 < |s| && s[t2] == ']' then
              Some(Segment(s[i..j], s[j + 3..t2], i, t2 + 1))
            else None
        else None
  }

  /** A match spans its label, `: [`, its range and `]`; the label is `\w+` and the range has the pattern's form. */
  lemma SegmentWellFormed(s: string, i: nat)
    requires i <= |s| && SegmentAt(s, i).Some?
    ensures var seg := SegmentAt(s, i).value;
            s[i..seg.end] == SegmentText(seg.day, seg.range) && IsDayLabel(seg.day) && IsRange(seg.range)
  {
    var j, t1, t2 := SegmentAtParts(s, i);
    WordRunWord(s, i);
    assert IsDayLabel(s[i..j]) by {
      forall k | 0 <= k < j - i ensures IsWordChar(s[i..j][k]) { assert s[i..j][k] == s[i + k]; }
    }
    TimeAtToken(s, j + 3);
    TimeAtToken(s, t1 + 1);
    SegmentParts(s, i, j, t1, t2);
  }

  /** The scan positions behind a match: end of the label, of the first time and of the second. */
  lemma SegmentAtParts(s: string, i: nat) returns (j: nat, t1: nat, t2: nat)
    requires i <= |s| && SegmentAt(s, i).Some?
    ensures i < j && j + 3 < t1 < t2 < |s|
    ensures j == WordRunEnd(s, i) && s[j..j + 3] == ": ["
    ensures TimeAt(s, j + 3) == Some(t1) && s[t1] == '-'
    ensures TimeAt(s, t1 + 1) == Some(t2) && s[t2] == ']'
    ensures SegmentAt(s, i).value == Segment(s[i..j], s[j + 3..t2], i, t2 + 1)
  {
    j := WordRunEnd(s, i);
    t1 := TimeAt(s, j + 3).value;
    t2 := TimeAt(s, t1 + 1).value;
  }

  /** The text and the well-formedness of a match whose parts lie at the given positions. */
  lemma SegmentParts(s: string, i: nat, j: nat, t1: nat, t2: nat)
    requires i < j && j + 3 < t1 < t2 < |s|
    requires IsDayLabel(s[i..j]) && s[j..j + 3] == ": ["
    requires IsTimeToken(s[j + 3..t1]) && s[t1] == '-' && IsTimeToken(s[t1 + 1..t2]) && s[t2] == ']'
    ensures s[i..t2 + 1] == SegmentText(s[i..j], s[j + 3..t2])
    ensures IsRange(s[j + 3..t2])
  {
    assert s[j + 3..t2] == s[j + 3..t1] + "-" + s[t1 + 1..t2];
    RangeOfTokens(s[j + 3..t1], s[t1 + 1..t2]);
    assert s[i..t2 + 1] == s[i..j] + s[j..j + 3] + s[j + 3..t2] + s[t2..t2 + 1];
  }

  /**
   * `re.findall` from position `p`: the leftmost match at or after `p`, then
   * the matches after its end.
   */
  function FindAll(s: string, p: nat): (segs: seq<Segment>)
    requires p <= |s|
    ensures forall k :: 0 <= k < |segs| ==> p <= segs[k].start < segs[k].end <= |s|
    ensures forall k :: 0 <= k < |segs| - 1 ==> segs[k].end <= segs[k + 1].start
    decreases |s| - p
  {
    if p == |s| then []
    else
      match SegmentAt(s, p)
      case Some(seg) =>
        var rest := FindAll(s, seg.end);
        var segs := [seg] + rest;
        assert forall k :: 1 <= k < |segs| ==> segs[k] == rest[k - 1];
        segs
      case None => FindAll(s, p + 1)
  }

  /** Each pair `findall` reports is the match at its start. */
  lemma {:induction false} FindAllMatches(s: string, p: nat, k: nat)
    requires p <= |s| && k < |FindAll(s, p)|
    ensures SegmentAt(s, FindAll(s, p)[k].start) == Some(FindAll(s, p)[k])
    decreases |s| - p
  {
    match SegmentAt(s, p)
    case Some(seg) =>
      if k > 0 { FindAllMatches(s, seg.end, k - 1); }
    case None =>
      FindAllMatches(s, p + 1, k);
  }

  lemma FindAllWellFormed(s: string, p: nat)
    requires p <= |s|
    ensures AllWellFormed(FindAll(s, p))
  {
    var segs := FindAll(s, p);
    forall k | 0 <= k < |segs| ensures IsDayLabel(segs[k].day) && IsRange(segs[k].range) {
      FindAllMatches(s, p, k);
      SegmentWellFormed(s, segs[k].start);
    }
  }

  /** The pattern matches at no start in `[p, q)`. */
  predicate NoMatchIn(s: string, p: nat, q: nat)
    requires q <= |s|
  {
    forall i :: p <= i < q ==> SegmentAt(s, i).None?
  }

  /**
   * `findall` misses nothing: it finds no pair exactly when the pattern
   * matches at no start, and its first pair is at the leftmost start.
   */
  lemma {:induction false} FindAllLeftmost(s: string, p: nat)
    requires p <= |s|
    ensures FindAll(s, p) == [] <==> NoMatchIn(s, p, |s|)
    ensures FindAll(s, p) != [] ==> NoMatchIn(s, p, FindAll(s, p)[0].start)
    decreases |s| - p
  {
    if p < |s| {
      match SegmentAt(s, p)
      case Some(seg) =>
        assert FindAll(s, p)[0] == seg;
      case None =>
        FindAllLeftmost(s, p + 1);
    }
  }

  /** `{day: time_range for day, time_range in matches}`: later pairs overwrite earlier ones. */
  function ToMap(segs: seq<Segment>): (m: map<string, string>)
    ensures m.Keys == set k | 0 <= k < |segs| :: segs[k].day
    ensures AllWellFormed(segs) ==> WellFormedMap(m)
  {
    if segs == [] then map[]
    else
      var front := segs[..|segs| - 1];
      var last := segs[|segs| - 1];
      assert forall k :: 0 <= k < |front| ==> front[k] == segs[k];
      assert (set k | 0 <= k < |segs| :: segs[k].day) == (set k | 0 <= k < |front| :: front[k].day) + {last.day};
      assert AllWellFormed(segs) ==> AllWellFormed(front);
      ToMap(front)[last.day := last.range]
  }

  /** Every pair has a `\w+` label and a range of the pattern. */
  predicate AllWellFormed(segs: seq<Segment>) {
    forall k :: 0 <= k < |segs| ==> IsDayLabel(segs[k].day) && IsRange(segs[k].range)
  }

  predicate WellFormedMap(m: map<string, string>) {
    forall key :: key in m ==> IsDayLabel(key) && IsRange(m[key])
  }

  /** A day's entry is the range of its last occurrence. */
  lemma {:induction false} LaterWins(segs: seq<Segment>, k: nat)
    requires k < |segs|
    requires forall j :: k < j < |segs| ==> segs[j].day != segs[k].day
    ensures segs[k].day in ToMap(segs) && ToMap(segs)[segs[k].day] == segs[k].range
  {
    if k < |segs| - 1 {
      var front := segs[..|segs| - 1];
      LaterWins(front, k);
    }
  }

  /** `convert_hours_string_to_dict(hours_string)` */
  function HoursDict(hoursString: string): (m: map<string, string>)
    ensures WellFormedMap(m)
  {
    var t := NormalizeSpaces(hoursString);
    FindAllWellFormed(t, 0);
    ToMap(FindAll(t, 0))
  }

  /** The map is empty exactly when the pattern matches nowhere in the normalised text. */
  lemma EmptyIffNoMatch(hoursString: string)
    ensures var t := NormalizeSpaces(hoursString);
            HoursDict(hoursString) == map[] <==> NoMatchIn(t, 0, |t|)
  {
    var t := NormalizeSpaces(hoursString);
    var segs := FindAll(t, 0);
    FindAllLeftmost(t, 0);
    assert HoursDict(hoursString) == ToMap(segs);
    if segs != [] {
      assert segs[0].day in ToMap(segs);
    }
  }

  /** Every range in the map splits on `-` into exactly two parts. */
  lemma RangesSplitInTwo(hoursString: string, key: string)
    requires key in HoursDict(hoursString)
    ensures |Split(HoursDict(hoursString)[key], '-')| == 2
  {
  }

  /** The scan steps of `SegmentAt`, each established on its own. */
  lemma SegmentAtSteps(s: string, i: nat, j: nat, t1: nat, t2: nat)
    requires i < j && j + 3 <= |s| && t2 < |s|
    requires WordRunEnd(s, i) == j && s[j..j + 3] == ": ["
    requires TimeAt(s, j + 3) == Some(t1) && t1 < |s| && s[t1] == '-'
    requires TimeAt(s, t1 + 1) == Some(t2) && s[t2] == ']'
    ensures SegmentAt(s, i) == Some(Segment(s[i..j], s[j + 3..t2], i, t2 + 1))
  {
  }

  /** Where the parts of a segment text lie. */
  lemma SegmentLayout(day: string, a: string, b: string)
    ensures var s := day + ": [" + a + "-" + b + "]";
            var j := |day|;
            var t1 := j + 3 + |a|;
            var t2 := t1 + 1 + |b|;
            && |s| == t2 + 1
            && s[..j] == day && s[j..j + 3] == ": [" && s[j + 3..t1] == a
            && s[t1] == '-' && s[t1 + 1..t2] == b && s[t2] == ']'
            && s[j + 3..t2] == a + "-" + b
  {
  }

  /** A segment text on its own is matched at its start, with its label and range. */
  lemma SegmentFound(day: string, a: string, b: string)
    requires IsDayLabel(day) && IsTimeToken(a) && IsTimeToken(b)
    ensures var s := day + ": [" + a + "-" + b + "]";
            SegmentAt(s, 0) == Some(Segment(day, a + "-" + b, 0, |s|))
  {
    SegmentLayout(day, a, b);
    LaidOutSegmentFound(day + ": [" + a + "-" + b + "]", day, a, b);
  }

  /** `SegmentFound` on a text described only by where its parts lie. */
  lemma LaidOutSegmentFound(s: string, day: string, a: string, b: string)
    requires IsDayLabel(day) && IsTimeToken(a) && IsTimeToken(b)
    requires var j := |day|;
             var t1 := j + 3 + |a|;
             var t2 := t1 + 1 + |b|;
             && |s| == t2 + 1
             && s[..j] == day && s[j..j + 3] == ": [" && s[j + 3..t1] == a
             && s[t1] == '-' && s[t1 + 1..t2] == b && s[t2] == ']'
             && s[j + 3..t2] == a + "-" + b
    ensures SegmentAt(s, 0) == Some(Segment(day, a + "-" + b, 0, |s|))
  {
    var j := |day|;
    var t1 := j + 3 + |a|;
    var t2 := t1 + 1 + |b|;
    LabelRun(s, day);
    TokenAt(s, j + 3, a);
    TokenAt(s, t1 + 1, b);
    SegmentAtSteps(s, 0, j, t1, t2);
  }

  lemma LabelRun(s: string, day: string)
    requires IsDayLabel(day) && |day| < |s| && s[..|day|] == day && s[|day|] == ':'
    ensures WordRunEnd(s, 0) == |day|
  {
    forall k | 0 <= k < |day| ensures IsWordChar(s[k]) {
      assert s[k] == s[..|day|][k];
    }
    WordRunTo(s, 0, |day|);
  }

  lemma {:induction false} WordRunTo(s: string, i: nat, j: nat)
    requires i <= j < |s|
    requires forall k :: i <= k < j ==> IsWordChar(s[k])
    requires !IsWordChar(s[j])
    ensures WordRunEnd(s, i) == j
    decreases j - i
  {
    if i < j { WordRunTo(s, i + 1, j); }
  }

  lemma {:induction false} TimeRunTo(s: string, i: nat, j: nat)
    requires i <= j <= |s|
    requires forall k :: i <= k < j ==> IsTimeChar(s[k])
    requires j == |s| || !IsTimeChar(s[j])
    ensures TimeCharsEnd(s, i) == j
    decreases j - i
  {
    if i < j { TimeRunTo(s, i + 1, j); }
  }

  /** A time token followed by a non-time character is matched by `TimeAt`. */
  lemma TokenAt(s: string, i: nat, t: string)
    requires i + |t| < |s| && s[i..i + |t|] == t && IsTimeToken(t)
    requires !IsTimeChar(s[i + |t|]) && s[i + |t|] != ' '
    ensures TimeAt(s, i) == Some(i + |t|)
  {
    var body := t[..|t| - 2];
    var n := if AllTimeChars(body) then |body| else |body| - 1;
    forall k | i <= k < i + n ensures IsTimeChar(s[k]) {
      assert s[k] == t[k - i];
      if !AllTimeChars(body) { assert t[k - i] == body[..|body| - 1][k - i]; }
      else { assert t[k - i] == body[k - i]; }
    }
    assert s[i + n] == t[n];
    TimeRunTo(s, i, i + n);
    assert s[i + |t| - 2] == t[|t| - 2];
    assert s[i + |t| - 1] == t[|t| - 1];
  }

  /** A text that is exactly one segment gives a one-entry map. */
  lemma SingleSegment(day: string, a: string, b: string)
    requires IsDayLabel(day) && IsTimeToken(a) && IsTimeToken(b)
    requires NarrowNoBreakSpace !in a && NarrowNoBreakSpace !in b
    ensures HoursDict(day + ": [" + a + "-" + b + "]") == map[day := a + "-" + b]
  {
    var s := day + ": [" + a + "-" + b + "]";
    assert NormalizeSpaces(s) == s by {
      forall k | 0 <= k < |s| ensures s[k] != NarrowNoBreakSpace {
        SegmentLayout(day, a, b);
        var j := |day|;
        var t1 := j + 3 + |a|;
        if k < j { assert s[k] == s[..j][k]; }
        else if j + 3 <= k < t1 { assert s[k] == s[j + 3..t1][k - j - 3]; }
        else if t1 < k < |s| - 1 { assert s[k] == s[t1 + 1..|s| - 1][k - t1 - 1]; }
      }
    }
    SegmentFound(day, a, b);
    assert FindAll(s, 0) == [Segment(day, a + "-" + b, 0, |s|)];
  }

  /** The example of the specification: one segment gives a one-entry map. */
  lemma MondayExample()
    ensures HoursDict("Monday: [9 am-6 pm]") == map["Monday" := "9 am-6 pm"]
  {
    TokenExample("9 am", "9");
    TokenExample("6 pm", "6");
    assert "Monday" + ": [" + "9 am" + "-" + "6 pm" + "]" == "Monday: [9 am-6 pm]";
    assert "9 am" + "-" + "6 pm" == "9 am-6 pm";
    SingleSegment("Monday", "9 am", "6 pm");
  }

  /** The pattern admits a time with no blank before `am`/`pm`. */
  lemma NoBlankExample()
    ensures HoursDict("Monday: [10am-8pm]") == map["Monday" := "10am-8pm"]
  {
    TokenExample("10am", "10");
    TokenExample("8pm", "8");
    assert "Monday" + ": [" + "10am" + "-" + "8pm" + "]" == "Monday: [10am-8pm]";
    assert "10am" + "-" + "8pm" == "10am-8pm";
    SingleSegment("Monday", "10am", "8pm");
  }

  lemma TokenExample(t: string, digits: string)
    requires |digits| >= 1 && AllDigits(digits)
    requires t == digits + " am" || t == digits + " pm" || t == digits + "am" || t == digits + "pm"
    ensures IsTimeToken(t) && NarrowNoBreakSpace !in t
  {
    var body := t[..|t| - 2];
    if |t| == |digits| + 3 {
      assert body[..|body| - 1] == digits;
    } else {
      assert body == digits;
    }
  }

  /** Only the normalised text matters: narrow no-break spaces act as plain spaces. */
  lemma NormalizeFirst(hoursString: string)
    ensures HoursDict(NormalizeSpaces(hoursString)) == HoursDict(hoursString)
  {
    var t := NormalizeSpaces(hoursString);
    assert NormalizeSpaces(t) == t;
  }

  /** A schedule written with U+202F before `am`/`pm` is read as if with plain spaces. */
  lemma NarrowSpaceExample()
    ensures HoursDict("Sunday: [10\U{202F}am-8\U{202F}pm]") == map["Sunday" := "10 am-8 pm"]
  {
    var raw := "Sunday: [10\U{202F}am-8\U{202F}pm]";
    var plain := "Sunday: [10 am-8 pm]";
    NarrowSpaceNormalized();
    NormalizeFirst(raw);
    assert HoursDict(raw) == HoursDict(plain);
    PlainSundayExample();
  }

  lemma PlainSundayExample()
    ensures HoursDict("Sunday: [10 am-8 pm]") == map["Sunday" := "10 am-8 pm"]
  {
    TokenExample("10 am", "10");
    TokenExample("8 pm", "8");
    assert "Sunday" + ": [" + "10 am" + "-" + "8 pm" + "]" == "Sunday: [10 am-8 pm]";
    assert "10 am" + "-" + "8 pm" == "10 am-8 pm";
    SingleSegment("Sunday", "10 am", "8 pm");
  }

  lemma NormalizeAbsent(a: string)
    requires NarrowNoBreakSpace !in a
    ensures NormalizeSpaces(a) == a
  {
  }

  lemma NormalizeAround(a: string, b: string)
    requires NarrowNoBreakSpace !in a
    ensures NormalizeSpaces(a + [NarrowNoBreakSpace] + b) == a + " " + NormalizeSpaces(b)
  {
    var x := a + [NarrowNoBreakSpace] + b;
    var y := a + " " + NormalizeSpaces(b);
    forall k | 0 <= k < |x| ensures NormalizeSpaces(x)[k] == y[k] {
      if k < |a| {
        assert x[k] == a[k];
      } else if k > |a| {
        assert x[k] == b[k - |a| - 1];
      }
    }
  }

  lemma NarrowSpaceNormalized()
    ensures NormalizeSpaces("Sunday: [10\U{202F}am-8\U{202F}pm]") == "Sunday: [10 am-8 pm]"
  {
    var n := NarrowNoBreakSpace;
    var tail := "am-8" + [n] + "pm]";
    assert "Sunday: [10\U{202F}am-8\U{202F}pm]" == "Sunday: [10" + [n] + tail;
    NormalizeAbsent("pm]");
    NormalizeAround("am-8", "pm]");
    assert NormalizeSpaces(tail) == "am-8 pm]";
    NormalizeAround("Sunday: [10", tail);
    assert "Sunday: [10" + " " + "am-8 pm]" == "Sunday: [10 am-8 pm]";
  }
}
