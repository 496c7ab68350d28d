/// The postcode lookups: `re.search(postcode_pattern, row["Fulladdress"])`
/// followed by `.group()` or `None` (extractor2.py:114-118, extractor.py:36-41).
///
/// Neither pattern has a nested or unbounded repetition: every way it can match
/// is a fixed sequence of character classes. Python's engine tries the
/// alternatives of `|` left to right and each `?` or `{1,2}` greedy first, so
/// at a given start the match it reports is the FIRST of these sequences, in
/// that order, that fits the text there; `re.search` reports the leftmost
/// start at which any sequence fits. A pattern is therefore modelled as its
/// ordered list of class sequences ("paths").
module Postcode {
  import opened Common

  /** The character classes the two patterns use. */
  datatype CharClass =
    | Letter        // [A-Za-z]
    | Digit         // [0-9], and `\d` on ASCII
    | SecondLetter  // [A-Ha-hJ-Yj-y]: a letter other than I and Z
    | Blank         // \s
    | WordChar      // \w on ASCII
    | OneOf(a: char, b: char)  // a literal character, or a letter in either case (`[Gg]`)

  predicate InClass(c: char, k: CharClass) {
    match k
    case Letter => IsLetter(c)
    case Digit => IsDigit(c)
    case SecondLetter => IsLetter(c) && c !in {'I', 'i', 'Z', 'z'}
    case Blank => IsSpace(c)
    case WordChar => IsWordChar(c)
    case OneOf(a, b) => c == a || c == b
  }

  /** One way through a pattern: a class per character. */
  type Path = seq<CharClass>

  /** The path fits the text starting at `i`. */
  predicate PathAt(s: string, i: nat, path: Path) {
    i + |path| <= |s| && forall k :: 0 <= k < |path| ==> InClass(s[i + k], path[k])
  }

  /** `[Gg][Ii][Rr] 0[Aa]{2}` */
  const Gir: Path := [OneOf('G', 'g'), OneOf('I', 'i'), OneOf('R', 'r'), OneOf(' ', ' '), OneOf('0', '0'), OneOf('A', 'a'), OneOf('A', 'a')]

  /** `[0-9][A-Za-z]{2}` */
  const Inward: Path := [Digit, Letter, Letter]

  /**
   * The outward code, in the order the engine tries it:
   * `[A-Za-z][0-9]{1,2}`, then `[A-Za-z][A-Ha-hJ-Yj-y][0-9]{1,2}`, then
   * `[A-Za-z][0-9][A-Za-z]`, then `[A-Za-z][A-Ha-hJ-Yj-y][0-9][A-Za-z]?`,
   * each optional or repeated part taken first at its longest.
   */
  const Outward: seq<Path> := [
    [Letter, Digit, Digit], [Letter, Digit],
    [Letter, SecondLetter, Digit, Digit], [Letter, SecondLetter, Digit],
    [Letter, Digit, Letter],
    [Letter, SecondLetter, Digit, Letter], [Letter, SecondLetter, Digit]
  ]

  /** Each outward code followed by `\s?[0-9][A-Za-z]{2}`, the blank tried first. */
  function WithInward(outs: seq<Path>): (paths: seq<Path>)
    ensures |paths| == 2 * |outs|
  {
    if outs == [] then []
    else [outs[0] + [Blank] + Inward, outs[0] + Inward] + WithInward(outs[1..])
  }

  /** Outward code `k` comes back at `2k` with the blank and at `2k + 1` without it. */
  lemma {:induction false} WithInwardAt(outs: seq<Path>, k: nat)
    requires k < |outs|
    ensures WithInward(outs)[2 * k] == outs[k] + [Blank] + Inward
    ensures WithInward(outs)[2 * k + 1] == outs[k] + Inward
  {
    if k > 0 {
      WithInwardAt(outs[1..], k - 1);
      assert WithInward(outs)[2 * k] == WithInward(outs[1..])[2 * (k - 1)];
      assert WithInward(outs)[2 * k + 1] == WithInward(outs[1..])[2 * (k - 1) + 1];
    }
  }

  /** The UK postcode pattern of extractor2.py:114: `GIR 0AA` first, then the general form. */
  function UkPaths(): seq<Path> {
    [Gir] + WithInward(Outward)
  }

  /** The pattern `E\d{2} \w{3}` of extractor.py:36. */
  function NarrowPaths(): seq<Path> {
    [[OneOf('E', 'E'), Digit, Digit, OneOf(' ', ' '), WordChar, WordChar, WordChar]]
  }

  /** The index of the first path that fits at `i`: the match the engine reports at that start. */
  function FirstPath(s: string, i: nat, paths: seq<Path>): (r: Option<nat>)
    ensures r.Some? ==> r.value < |paths| && PathAt(s, i, paths[r.value])
    ensures r.Some? ==> forall k :: 0 <= k < r.value ==> !PathAt(s, i, paths[k])
    ensures r.None? ==> forall k :: 0 <= k < |paths| ==> !PathAt(s, i, paths[k])
  {
    if paths == [] then None
    else if PathAt(s, i, paths[0]) then Some(0)
    else
      match FirstPath(s, i, paths[1..])
      case None => None
      case Some(k) => Some(k + 1)
  }

  /** No path fits at any start in `[p, q)`. */
  predicate NoMatchIn(s: string, paths: seq<Path>, p: nat, q: nat) {
    forall i, k :: p <= i < q && 0 <= k < |paths| ==> !PathAt(s, i, paths[k])
  }

  /** A match: where it starts and which path it took. */
  datatype Match = Match(start: nat, path: nat)

  /**
   * `re.search` from position `p`: the leftmost start at which some path fits,
   * with the first path that fits there.
   */
  function SearchFrom(s: string, paths: seq<Path>, p: nat): (r: Option<Match>)
    requires p <= |s|
    ensures r.Some? ==> p <= r.value.start <= |s| && r.value.path < |paths|
    ensures r.Some? ==> PathAt(s, r.value.start, paths[r.value.path])
    ensures r.Some? ==> forall k :: 0 <= k < r.value.path ==> !PathAt(s, r.value.start, paths[k])
    ensures r.Some? ==> NoMatchIn(s, paths, p, r.value.start)
    ensures r.None? ==> NoMatchIn(s, paths, p, |s| + 1)
    decreases |s| - p
  {
    match FirstPath(s, p, paths)
    case Some(k) => Some(Match(p, k))
    case None =>
      if p == |s| then None
      else SearchFrom(s, paths, p + 1)
  }

  /** `m.group() if m else None` for `m = re.search(pattern, address)`. */
  function Group(address: string, paths: seq<Path>): (r: Option<string>)
    ensures r.None? <==> NoMatchIn(address, paths, 0, |address| + 1)
  {
    match SearchFrom(address, paths, 0)
    case None => None
    case Some(m) =>
      assert PathAt(address, m.start, paths[m.path]);
      Some(address[m.start..m.start + |paths[m.path]|])
  }

  /**
   * The postcode of extractor2.py:117-118: `None` exactly when the pattern
   * fits nowhere, otherwise 5 to 8 characters ending in a digit and two letters.
   */
  function UkPostcode(address: string): (r: Option<string>)
    ensures r.None? <==> NoMatchIn(address, UkPaths(), 0, |address| + 1)
    ensures r.Some? ==> 5 <= |r.value| <= 8 && IsDigit(r.value[|r.value| - 3]) && IsLetter(r.value[|r.value| - 2]) && IsLetter(r.value[|r.value| - 1])
  {
    if Group(address, UkPaths()).Some? then
      UkShape(address);
      Group(address, UkPaths())
    else
      None
  }

  /** What the UK pattern matched is postcode-shaped. */
  lemma UkShape(address: string)
    requires Group(address, UkPaths()).Some?
    ensures var pc := Group(address, UkPaths()).value;
            5 <= |pc| <= 8 && IsDigit(pc[|pc| - 3]) && IsLetter(pc[|pc| - 2]) && IsLetter(pc[|pc| - 1])
  {
    UkPathsShaped();
    GroupShaped(address, UkPaths());
  }

  /**
   * The postcode of extractor.py:39-41: `None` exactly when the pattern fits
   * nowhere, otherwise `E`, two digits, a space and three word characters.
   */
  function NarrowPostcode(address: string): (r: Option<string>)
    ensures r.None? <==> NoMatchIn(address, NarrowPaths(), 0, |address| + 1)
    ensures r.Some? ==> |r.value| == 7 && r.value[0] == 'E' && IsDigit(r.value[1]) && IsDigit(r.value[2]) && r.value[3] == ' '
                        && IsWordChar(r.value[4]) && IsWordChar(r.value[5]) && IsWordChar(r.value[6])
  {
    if Group(address, NarrowPaths()).Some? then
      NarrowShape(address);
      Group(address, NarrowPaths())
    else
      None
  }

  /** The text a path matched fits the path character by character. */
  lemma GroupFits(address: string, paths: seq<Path>)
    requires Group(address, paths).Some?
    ensures var m := SearchFrom(address, paths, 0).value;
            Group(address, paths).value == address[m.start..m.start + |paths[m.path]|]
            && PathAt(Group(address, paths).value, 0, paths[m.path])
  {
    var m := SearchFrom(address, paths, 0).value;
    var g := Group(address, paths).value;
    forall k | 0 <= k < |paths[m.path]| ensures InClass(g[k], paths[m.path][k]) {
      assert g[k] == address[m.start + k];
    }
  }

  /** 5 to 8 classes, and either `GIR 0AA` or an ending with the inward code. */
  predicate PostcodeShaped(path: Path) {
    5 <= |path| <= 8 && (path == Gir || path[|path| - 3..] == Inward)
  }

  /** Two to four outward classes plus the inward code, with or without the blank, are postcode-shaped. */
  lemma {:induction false} WithInwardShaped(outs: seq<Path>)
    requires forall k :: 0 <= k < |outs| ==> 2 <= |outs[k]| <= 4
    ensures forall k :: 0 <= k < |WithInward(outs)| ==> PostcodeShaped(WithInward(outs)[k])
  {
    if outs != [] {
      WithInwardShaped(outs[1..]);
      var o := outs[0];
      assert (o + [Blank] + Inward)[|o| + 1..] == Inward;
      assert (o + Inward)[|o|..] == Inward;
      assert WithInward(outs) == [o + [Blank] + Inward, o + Inward] + WithInward(outs[1..]);
    }
  }

  /** Every UK path is postcode-shaped. */
  lemma UkPathsShaped()
    ensures forall k :: 0 <= k < |UkPaths()| ==> PostcodeShaped(UkPaths()[k])
  {
    assert forall k :: 0 <= k < |Outward| ==> 2 <= |Outward[k]| <= 4;
    WithInwardShaped(Outward);
    assert PostcodeShaped(Gir);
  }

  /** What a postcode-shaped path matched ends in a digit and two letters. */
  lemma EndsLikePostcode(pc: string, path: Path)
    requires PostcodeShaped(path) && PathAt(pc, 0, path) && |pc| == |path|
    ensures IsDigit(pc[|pc| - 3]) && IsLetter(pc[|pc| - 2]) && IsLetter(pc[|pc| - 1])
  {
    var n := |path|;
    assert InClass(pc[n - 3], path[n - 3]) && InClass(pc[n - 2], path[n - 2]) && InClass(pc[n - 1], path[n - 1]);
    if path == Gir {
      assert path[n - 3] == OneOf('0', '0') && path[n - 2] == OneOf('A', 'a') && path[n - 1] == OneOf('A', 'a');
    } else {
      assert path[n - 3] == Inward[0] && path[n - 2] == Inward[1] && path[n - 1] == Inward[2];
    }
  }

  /** With postcode-shaped paths, what the search finds is 5 to 8 characters ending in a digit and two letters. */
  lemma GroupShaped(address: string, paths: seq<Path>)
    requires forall k :: 0 <= k < |paths| ==> PostcodeShaped(paths[k])
    requires Group(address, paths).Some?
    ensures var pc := Group(address, paths).value;
            5 <= |pc| <= 8 && IsDigit(pc[|pc| - 3]) && IsLetter(pc[|pc| - 2]) && IsLetter(pc[|pc| - 1])
  {
    var m := SearchFrom(address, paths, 0).value;
    GroupFits(address, paths);
    EndsLikePostcode(Group(address, paths).value, paths[m.path]);
  }

  /** What the narrow pattern matched fits its one path. */
  lemma NarrowShape(address: string)
    requires Group(address, NarrowPaths()).Some?
    ensures var pc := Group(address, NarrowPaths()).value;
            |pc| == 7 && pc[0] == 'E' && IsDigit(pc[1]) && IsDigit(pc[2]) && pc[3] == ' '
            && IsWordChar(pc[4]) && IsWordChar(pc[5]) && IsWordChar(pc[6])
  {
    GroupFits(address, NarrowPaths());
    var pc := Group(address, NarrowPaths()).value;
    var path := NarrowPaths()[0];
    assert InClass(pc[0], path[0]) && InClass(pc[1], path[1]) && InClass(pc[2], path[2]) && InClass(pc[3], path[3]);
    assert InClass(pc[4], path[4]) && InClass(pc[5], path[5]) && InClass(pc[6], path[6]);
  }

  /** An address without a capital `E` has no narrow postcode, whatever else it holds. */
  lemma NarrowNeedsE(address: string)
    requires 'E' !in address
    ensures NarrowPostcode(address) == None
  {
    var path := NarrowPaths()[0];
    forall i, k | 0 <= i <= |address| && 0 <= k < |NarrowPaths()| ensures !PathAt(address, i, NarrowPaths()[k]) {
      if i < |address| {
        assert !InClass(address[i], path[0]);
      }
    }
  }

  /** A text starting with a path that fits, after none of the earlier ones does, yields that path's text. */
  lemma FoundAtStart(address: string, paths: seq<Path>, k: nat)
    requires k < |paths| && PathAt(address, 0, paths[k])
    requires forall j :: 0 <= j < k ==> !PathAt(address, 0, paths[j])
    ensures Group(address, paths) == Some(address[..|paths[k]|])
  {
    var r := FirstPath(address, 0, paths);
    assert r.Some? && r.value >= k;
  }

  /** `GIR 0AA`, in any letter case, is read as the special postcode. */
  lemma GirAnyCase(address: string)
    requires |address| >= 7 && address[3] == ' ' && address[4] == '0'
    requires address[0] in {'G', 'g'} && address[1] in {'I', 'i'} && address[2] in {'R', 'r'}
    requires address[5] in {'A', 'a'} && address[6] in {'A', 'a'}
    ensures UkPostcode(address) == Some(address[..7])
  {
    assert PathAt(address, 0, Gir);
    FoundAtStart(address, UkPaths(), 0);
  }

  /** The first four UK paths. */
  lemma UkFirstPaths()
    ensures |UkPaths()| == 15 && UkPaths()[0] == Gir
    ensures UkPaths()[1] == [Letter, Digit, Digit, Blank, Digit, Letter, Letter]
    ensures UkPaths()[2] == [Letter, Digit, Digit, Digit, Letter, Letter]
    ensures UkPaths()[3] == [Letter, Digit, Blank, Digit, Letter, Letter]
  {
    var w := WithInward(Outward);
    assert w == [Outward[0] + [Blank] + Inward, Outward[0] + Inward] + WithInward(Outward[1..]);
    assert WithInward(Outward[1..])[0] == Outward[1] + [Blank] + Inward;
  }

  /**
   * An address that starts with a one-digit district and a blank (`E1 6AN`)
   * gives those six characters: the two-digit forms fail on the blank, and
   * `GIR 0AA` on the first letter.
   */
  lemma OneDigitDistrict(address: string)
    requires |address| >= 6 && IsLetter(address[0]) && address[0] !in {'G', 'g'} && IsDigit(address[1])
    requires IsSpace(address[2]) && IsDigit(address[3]) && IsLetter(address[4]) && IsLetter(address[5])
    ensures UkPostcode(address) == Some(address[..6])
  {
    UkFirstPaths();
    var paths := UkPaths();
    assert !PathAt(address, 0, paths[0]) by { assert !InClass(address[0], paths[0][0]); }
    assert !PathAt(address, 0, paths[1]) by { assert !InClass(address[2], paths[1][2]); }
    assert !PathAt(address, 0, paths[2]) by { assert !InClass(address[2], paths[2][2]); }
    assert PathAt(address, 0, paths[3]);
    FoundAtStart(address, paths, 3);
  }

  /** `E14 5AB` is read by the narrow pattern as it stands. */
  lemma NarrowExample(address: string)
    requires address == "E14 5AB"
    ensures NarrowPostcode(address) == Some("E14 5AB")
  {
    assert PathAt(address, 0, NarrowPaths()[0]);
    FoundAtStart(address, NarrowPaths(), 0);
    assert address[..7] == address;
  }

  /** The narrow pattern misses a postcode outside the `E` district, which the UK pattern finds. */
  lemma NarrowMissesOtherDistricts(address: string)
    requires address == "N1 9GU"
    ensures NarrowPostcode(address) == None
    ensures UkPostcode(address) == Some("N1 9GU")
  {
    NarrowNeedsE(address);
    OneDigitDistrict(address);
    assert address[..6] == address;
  }
}
