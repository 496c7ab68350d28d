/// `resize_google_image_url(image_url, scale_factor=7)` (extractor2.py:319-344,
/// extractor.py:257-282, temp.py:12-37): `re.search(r"w(\d+)-h(\d+)", url)`
/// finds the first size token; both numbers are multiplied by the factor and
/// `re.sub` then writes `w{new_width}-h{new_height}` over EVERY token of the URL.
///
/// The match at a given start is unique: the first `\d+` is followed by `-`,
/// which is not a digit, so it takes the whole run of digits, and the second
/// `\d+` is the last item of the pattern, so being greedy it takes the whole
/// run as well. Each match is therefore computed by a greedy scan.
module ImageUrl {
  import opened Common

  /** The `scale_factor` used when none is given. */
  const DefaultScale: int := 7

  /** A `w<digits>-h<digits>` match: its span and its two groups, the digits of the width and of the height. */
  datatype Token = Token(start: nat, end: nat, width: string, height: string)

  /** The end of the run of ASCII digits starting at `i`. */
  function DigitsEnd(s: string, i: nat): (j: nat)
    requires i <= |s|
    ensures i <= j <= |s|
    ensures j == |s| || !IsDigit(s[j])
    decreases |s| - i
  {
    if i < |s| && IsDigit(s[i]) then DigitsEnd(s, i + 1) else i
  }

  /** Everything `DigitsEnd` steps over is a digit. */
  lemma {:induction false} DigitsEndDigits(s: string, i: nat)
    requires i <= |s|
    ensures AllDigits(s[i..DigitsEnd(s, i)])
    decreases |s| - i
  {
    if i < |s| && IsDigit(s[i]) {
      DigitsEndDigits(s, i + 1);
      var j := DigitsEnd(s, i);
      assert s[i..j] == [s[i]] + s[i + 1..j];
    }
  }

  /** The pattern matched at `i`, if it matches there. */
  function TokenAt(s: string, i: nat): (r: Option<Token>)
    requires i <= |s|
    ensures r.Some? ==> r.value.start == i && i + 5 <= r.value.end <= |s|
    ensures r.Some? ==> AllDigits(r.value.width) && AllDigits(r.value.height)
  {
    if i < |s| && s[i] == 'w' then
      var j := DigitsEnd(s, i + 1);
      if j > i + 1 && j + 1 < |s| && s[j] == '-' && s[j + 1] == 'h' then
        var e := DigitsEnd(s, j + 2);
        if e > j + 2 then
          DigitsEndDigits(s, i + 1);
          DigitsEndDigits(s, j + 2);
          Some(Token(i, e, s[i + 1..j], s[j + 2..e]))
        else None
      else None
    else None
  }

  /** No match starts in `[p, q)`. */
  predicate NoTokenIn(s: string, p: nat, q: nat)
    requires q <= |s|
  {
    forall i :: p <= i < q ==> TokenAt(s, i).None?
  }

  /** `re.search` from position `p`: the match with the leftmost start at or after `p`. */
  function Search(s: string, p: nat): (r: Option<Token>)
    requires p <= |s|
    ensures r.Some? ==> p <= r.value.start && r.value.start + 5 <= r.value.end <= |s|
    ensures r.Some? ==> AllDigits(r.value.width) && AllDigits(r.value.height)
    decreases |s| - p
  {
    if p == |s| then None
    else
      match TokenAt(s, p)
      case Some(t) => Some(t)
      case None => Search(s, p + 1)
  }

  /** `Search` finds a real match, misses none before it, and finds nothing only when there is nothing. */
  lemma {:induction false} SearchLeftmost(s: string, p: nat)
    requires p <= |s|
    ensures Search(s, p).None? <==> NoTokenIn(s, p, |s|)
    ensures Search(s, p).Some? ==> TokenAt(s, Search(s, p).value.start) == Search(s, p)
    ensures Search(s, p).Some? ==> NoTokenIn(s, p, Search(s, p).value.start)
    decreases |s| - p
  {
    if p < |s| && TokenAt(s, p).None? {
      SearchLeftmost(s, p + 1);
    }
  }

  /** `f"w{new_width}-h{new_height}"` */
  function Replacement(width: int, height: int): (rep: string)
    ensures |rep| >= 5 && rep[0] == 'w'
  {
    "w" + IntToDecimal(width) + "-h" + IntToDecimal(height)
  }

  /** `re.sub(pattern, rep, s[p:])`: every non-overlapping match, left to right, becomes `rep`. */
  function SubAll(s: string, p: nat, rep: string): (r: string)
    requires p <= |s|
    decreases |s| - p
  {
    match Search(s, p)
    case None => s[p..]
    case Some(t) => s[p..t.start] + rep + SubAll(s, t.end, rep)
  }

  /** `resize_google_image_url(url, k)` */
  function Rescale(url: string, k: int): (r: string)
    ensures Search(url, 0).None? ==> r == url
  {
    match Search(url, 0)
    case None => url
    case Some(t) => SubAll(url, 0, Replacement(DecimalValue(t.width) * k, DecimalValue(t.height) * k))
  }

  /** A URL with no `w<digits>-h<digits>` token comes back unchanged. */
  lemma NoTokenUnchanged(url: string, k: int)
    requires NoTokenIn(url, 0, |url|)
    ensures Rescale(url, k) == url
  {
    SearchLeftmost(url, 0);
  }

  /** The text `w<a>-h<b>` starts at `i`, with non-empty digit groups and no digit right after it. */
  predicate WrittenAt(s: string, i: nat, a: string, b: string) {
    var j := i + 1 + |a|;
    var e := j + 2 + |b|;
    && |a| >= 1 && |b| >= 1 && AllDigits(a) && AllDigits(b)
    && e <= |s| && s[i] == 'w' && s[i + 1..j] == a && s[j] == '-' && s[j + 1] == 'h' && s[j + 2..e] == b
    && (e == |s| || !IsDigit(s[e]))
  }

  /** Reading `w<a>-h<b>` followed by a non-digit: a token whose groups are `a` and `b`. */
  lemma ReadToken(s: string, i: nat, a: string, b: string)
    requires WrittenAt(s, i, a, b)
    ensures TokenAt(s, i) == Some(Token(i, i + |a| + |b| + 3, a, b))
  {
    var j := i + 1 + |a|;
    var e := j + 2 + |b|;
    forall k | i + 1 <= k < j ensures IsDigit(s[k]) { assert s[k] == s[i + 1..j][k - i - 1]; }
    forall k | j + 2 <= k < e ensures IsDigit(s[k]) { assert s[k] == s[j + 2..e][k - j - 2]; }
    DigitsRunTo(s, i + 1, j);
    DigitsRunTo(s, j + 2, e);
    assert j > i + 1 && j + 1 < |s| && e > j + 2;
  }

  /** Where the parts of `url == pre + "w" + a + "-h" + b + post` lie. */
  lemma TokenLayout(url: string, pre: string, a: string, b: string, post: string)
    requires url == pre + "w" + a + "-h" + b + post
    ensures var i := |pre|;
            var j := i + 1 + |a|;
            var e := j + 2 + |b|;
            && |url| == e + |post|
            && url[..i] == pre && url[i] == 'w' && url[i + 1..j] == a && url[j] == '-' && url[j + 1] == 'h'
            && url[j + 2..e] == b && url[e..] == post
  {
    var s1 := pre + "w";
    var s2 := s1 + a;
    var s3 := s2 + "-h";
    var s4 := s3 + b;
    assert url == s4 + post;
    assert url[..|s4|] == s4 && url[|s4|..] == post;
    assert s4[..|s3|] == s3 && s4[|s3|..] == b;
    assert s3[..|s2|] == s2 && s3[|s2|] == '-' && s3[|s2| + 1] == 'h';
    assert s2[..|s1|] == s1 && s2[|s1|..] == a;
    assert s1[..|pre|] == pre && s1[|pre|] == 'w';
  }

  lemma {:induction false} DigitsRunTo(s: string, i: nat, j: nat)
    requires i <= j <= |s|
    requires forall k :: i <= k < j ==> IsDigit(s[k])
    requires j == |s| || !IsDigit(s[j])
    ensures DigitsEnd(s, i) == j
    decreases j - i
  {
    if i < j { DigitsRunTo(s, i + 1, j); }
  }

  /** With no match from `p` on, `re.sub` keeps the rest verbatim. */
  lemma SubAllNone(s: string, p: nat, rep: string)
    requires p <= |s| && NoTokenIn(s, p, |s|)
    ensures SubAll(s, p, rep) == s[p..]
  {
    SearchLeftmost(s, p);
  }

  /** A stretch of the URL equal to a `w`-free text holds no token. */
  lemma NoWText(url: string, p: nat, q: nat, g: string)
    requires p <= q <= |url| && url[p..q] == g && 'w' !in g
    ensures NoTokenIn(url, p, q)
  {
    forall j | p <= j < q ensures TokenAt(url, j).None? {
      assert url[j] == g[j - p];
    }
  }

  /**
   * When the token `t` that `re.search` finds is also the last one,
   * `Rescale` writes its scaled size over it and keeps every other character.
   */
  lemma OnlyToken(url: string, t: Token, k: int)
    requires Search(url, 0) == Some(t) && NoTokenIn(url, t.end, |url|)
    ensures Rescale(url, k)
         == url[..t.start] + Replacement(DecimalValue(t.width) * k, DecimalValue(t.height) * k) + url[t.end..]
  {
    var rep := Replacement(DecimalValue(t.width) * k, DecimalValue(t.height) * k);
    SubAllStep(url, 0, url[..t.start], t, rep);
    SubAllNone(url, t.end, rep);
  }

  /**
   * A URL `<pre>w<a>-h<b><post>` holding one token (no digit right after it,
   * and no other token in `pre` or in `post`, wherever a `w` may appear)
   * becomes `<pre>w<a·k>-h<b·k><post>` with every other character unchanged.
   * The numbers are written afresh by `str`, so leading zeros are dropped.
   */
  lemma SingleToken(url: string, pre: string, a: string, b: string, post: string, k: int)
    requires url == pre + "w" + a + "-h" + b + post
    requires |a| >= 1 && |b| >= 1 && AllDigits(a) && AllDigits(b)
    requires post == [] || !IsDigit(post[0])
    requires NoTokenIn(url, 0, |pre|) && NoTokenIn(url, |pre| + |a| + |b| + 3, |url|)
    ensures Rescale(url, k) == pre + Replacement(DecimalValue(a) * k, DecimalValue(b) * k) + post
  {
    WrittenAfter(url, pre, a, b, post);
    SingleTokenAt(url, |pre|, a, b, k);
  }

  /** `SingleToken`, given where the token lies. */
  lemma SingleTokenAt(url: string, i: nat, a: string, b: string, k: int)
    requires WrittenAt(url, i, a, b)
    requires NoTokenIn(url, 0, i) && NoTokenIn(url, i + |a| + |b| + 3, |url|)
    ensures Rescale(url, k) == url[..i] + Replacement(DecimalValue(a) * k, DecimalValue(b) * k) + url[i + |a| + |b| + 3..]
  {
    var t := Token(i, i + |a| + |b| + 3, a, b);
    ReadToken(url, i, a, b);
    FirstTokenAt(url, 0, t);
    OnlyToken(url, t, k);
  }

  /**
   * `re.sub` from `p` when the text `w<a>-h<b>`, followed by a non-digit, is
   * at `i` and no token starts in `[p, i)`: the text up to `i`, the
   * replacement, then whatever `re.sub` makes of the rest from the token's end.
   */
  lemma ReplaceAt(url: string, p: nat, i: nat, a: string, b: string, rep: string)
    requires p <= i <= |url| && NoTokenIn(url, p, i) && WrittenAt(url, i, a, b)
    ensures Search(url, p) == Some(Token(i, i + |a| + |b| + 3, a, b))
    ensures SubAll(url, p, rep) == url[p..i] + rep + SubAll(url, i + |a| + |b| + 3, rep)
  {
    var t := Token(i, i + |a| + |b| + 3, a, b);
    ReadToken(url, i, a, b);
    FirstTokenAt(url, p, t);
    SubAllStep(url, p, url[p..i], t, rep);
  }

  /** One step of `re.sub`: the text `g` up to the match, the replacement, then the rest. */
  lemma SubAllStep(s: string, p: nat, g: string, t: Token, rep: string)
    requires p <= t.start <= |s| && Search(s, p) == Some(t) && s[p..t.start] == g
    ensures SubAll(s, p, rep) == g + rep + SubAll(s, t.end, rep)
  {
  }

  /** A token at `t.start` with none between `p` and it is what `re.search` finds from `p`. */
  lemma {:induction false} FirstTokenAt(s: string, p: nat, t: Token)
    requires p <= t.start <= |s| && TokenAt(s, t.start) == Some(t) && NoTokenIn(s, p, t.start)
    ensures Search(s, p) == Some(t)
    decreases t.start - p
  {
    if p < t.start {
      assert TokenAt(s, p).None?;
      FirstTokenAt(s, p + 1, t);
    }
  }

  /**
   * The replacement for non-negative sizes is itself a token whose two groups
   * read back as the two numbers, provided no digit follows it.
   */
  lemma ReplacementReadsBack(x: nat, y: nat, post: string)
    requires post == [] || !IsDigit(post[0])
    ensures var t := TokenAt(Replacement(x, y) + post, 0);
            && t.Some? && t.value.end == |Replacement(x, y)|
            && DecimalValue(t.value.width) == x && DecimalValue(t.value.height) == y
  {
    var a := NatToDecimal(x);
    var b := NatToDecimal(y);
    var r := Replacement(x, y);
    var s := r + post;
    assert WrittenAt(s, 0, a, b) by {
      assert r == "w" + a + "-h" + b;
      assert s == [] + "w" + a + "-h" + b + post;
      WrittenAfter(s, [], a, b, post);
    }
    ReadToken(s, 0, a, b);
  }

  /**
   * `w100-h200` scaled by the default factor 7 becomes `w700-h1400`, whatever
   * `w`-free address comes before it (such as
   * `https://lh5.googleusercontent.com/p/AF1Qip=`).
   */
  lemma DefaultScaleExample(pre: string)
    requires 'w' !in pre
    ensures Rescale(pre + "w100-h200-k-no", DefaultScale) == pre + "w700-h1400-k-no"
  {
    Replacement700x1400();
    DefaultScaleScaled(pre);
    assert "w700-h1400" + "-k-no" == "w700-h1400-k-no";
  }

  lemma Replacement700x1400()
    ensures Replacement(700, 1400) == "w700-h1400"
  {
    NatToDecimalStep(70);
    NatToDecimalStep(700);
    NatToDecimalStep(14);
    NatToDecimalStep(140);
    NatToDecimalStep(1400);
  }

  lemma DefaultScaleScaled(pre: string)
    requires 'w' !in pre
    ensures Rescale(pre + "w100-h200-k-no", 7) == pre + Replacement(700, 1400) + "-k-no"
  {
    assert DecimalValue("100") == 100 by { Numeral3('1', '0', '0'); }
    assert DecimalValue("200") == 200 by { Numeral3('2', '0', '0'); }
    var url := pre + "w100-h200-k-no";
    assert url == pre + "w" + "100" + "-h" + "200" + "-k-no";
    TokenLayout(url, pre, "100", "200", "-k-no");
    assert url[0..|pre|] == pre;
    NoWText(url, 0, |pre|, pre);
    NoWText(url, |pre| + 9, |url|, "-k-no");
    SingleToken(url, pre, "100", "200", "-k-no", 7);
  }

  /** The value of a three-digit numeral. */
  lemma Numeral3(x: char, y: char, z: char)
    requires IsDigit(x) && IsDigit(y) && IsDigit(z)
    ensures AllDigits([x, y, z])
    ensures DecimalValue([x, y, z]) == DigitValue(x) * 100 + DigitValue(y) * 10 + DigitValue(z)
  {
    DecimalValueSnoc([], x);
    assert [] + [x] == [x];
    DecimalValueSnoc([x], y);
    assert [x] + [y] == [x, y];
    DecimalValueSnoc([x, y], z);
    assert [x, y] + [z] == [x, y, z];
  }

  /** Leading zeros are not kept: `w007-h010` becomes `w49-h70`. */
  lemma LeadingZerosDropped(pre: string)
    requires 'w' !in pre
    ensures Rescale(pre + "w007-h010", DefaultScale) == pre + "w49-h70"
  {
    Replacement49x70();
    LeadingZerosScaled(pre);
  }

  lemma Replacement49x70()
    ensures Replacement(49, 70) == "w49-h70"
  {
    NatToDecimalStep(49);
    NatToDecimalStep(70);
  }

  lemma LeadingZerosScaled(pre: string)
    requires 'w' !in pre
    ensures Rescale(pre + "w007-h010", 7) == pre + Replacement(49, 70)
  {
    assert DecimalValue("007") == 7 by { Numeral3('0', '0', '7'); }
    assert DecimalValue("010") == 10 by { Numeral3('0', '1', '0'); }
    var url := pre + "w007-h010";
    assert url == pre + "w" + "007" + "-h" + "010" + "";
    TokenLayout(url, pre, "007", "010", "");
    assert url[0..|pre|] == pre;
    NoWText(url, 0, |pre|, pre);
    SingleToken(url, pre, "007", "010", "", 7);
  }

  /**
   * Every token is replaced, and by the FIRST token's scaled numbers: a URL
   * `<pre>w<a>-h<b><mid>w<c>-h<d><post>` with no other token becomes
   * `<pre>w<a·k>-h<b·k><mid>w<a·k>-h<b·k><post>`.
   */
  lemma TwoTokens(url: string, pre: string, a: string, b: string, mid: string, c: string, d: string, post: string, k: int)
    requires url == pre + "w" + a + "-h" + b + mid + "w" + c + "-h" + d + post
    requires |a| >= 1 && |b| >= 1 && |c| >= 1 && |d| >= 1
    requires AllDigits(a) && AllDigits(b) && AllDigits(c) && AllDigits(d)
    requires mid == [] || !IsDigit(mid[0])
    requires post == [] || !IsDigit(post[0])
    requires NoTokenIn(url, 0, |pre|)
    requires NoTokenIn(url, |pre| + |a| + |b| + 3, |pre| + |a| + |b| + 3 + |mid|)
    requires NoTokenIn(url, |pre| + |a| + |b| + |mid| + |c| + |d| + 6, |url|)
    ensures var rep := Replacement(DecimalValue(a) * k, DecimalValue(b) * k);
            Rescale(url, k) == pre + rep + mid + rep + post
  {
    var e := |pre| + |a| + |b| + 3;
    var e2 := e + |mid| + |c| + |d| + 3;
    TwoTokensWritten(url, pre, a, b, mid, c, d, post, e, e2);
    var rep := Replacement(DecimalValue(a) * k, DecimalValue(b) * k);
    TwoTokensAt(url, pre, a, b, mid, c, d, post, rep, e, e2);
  }

  /** `re.sub` over a URL laid out as `<pre>w<a>-h<b><mid>w<c>-h<d><post>`, given by where its parts lie. */
  lemma TwoTokensAt(url: string, pre: string, a: string, b: string, mid: string, c: string, d: string, post: string,
                    rep: string, e: nat, e2: nat)
    requires e == |pre| + |a| + |b| + 3 && e2 == e + |mid| + |c| + |d| + 3 && e2 <= |url|
    requires url[0..|pre|] == pre && url[e..e + |mid|] == mid && url[e2..] == post
    requires NoTokenIn(url, 0, |pre|) && NoTokenIn(url, e, e + |mid|) && NoTokenIn(url, e2, |url|)
    requires WrittenAt(url, |pre|, a, b) && WrittenAt(url, e + |mid|, c, d)
    ensures Search(url, 0) == Some(Token(|pre|, e, a, b))
    ensures SubAll(url, 0, rep) == pre + rep + mid + rep + post
  {
    ReplaceAt(url, 0, |pre|, a, b, rep);
    LastToken(url, e, mid, c, d, post, rep, e2);
    Chain(SubAll(url, 0, rep), SubAll(url, e, rep), pre, mid, post, rep);
  }

  /** `re.sub` from `p` over `<mid>w<c>-h<d><post>` holding no other token: `<mid><rep><post>`. */
  lemma LastToken(url: string, p: nat, mid: string, c: string, d: string, post: string, rep: string, q: nat)
    requires q == p + |mid| + |c| + |d| + 3 && q <= |url|
    requires url[p..p + |mid|] == mid && url[q..] == post
    requires NoTokenIn(url, p, p + |mid|) && NoTokenIn(url, q, |url|)
    requires WrittenAt(url, p + |mid|, c, d)
    ensures SubAll(url, p, rep) == mid + rep + post
  {
    ReplaceAt(url, p, p + |mid|, c, d, rep);
    SubAllNone(url, q, rep);
  }

  /** The two tokens of `TwoTokens`, and the texts around them, where `ReplaceAt` needs them. */
  lemma TwoTokensWritten(url: string, pre: string, a: string, b: string, mid: string, c: string, d: string, post: string,
                         e: nat, e2: nat)
    requires |a| >= 1 && |b| >= 1 && |c| >= 1 && |d| >= 1
    requires AllDigits(a) && AllDigits(b) && AllDigits(c) && AllDigits(d)
    requires mid == [] || !IsDigit(mid[0])
    requires post == [] || !IsDigit(post[0])
    requires url == pre + "w" + a + "-h" + b + mid + "w" + c + "-h" + d + post
    requires e == |pre| + |a| + |b| + 3 && e2 == e + |mid| + |c| + |d| + 3
    ensures e2 <= |url| && url[0..|pre|] == pre && url[e..e + |mid|] == mid && url[e2..] == post
    ensures WrittenAt(url, |pre|, a, b) && WrittenAt(url, e + |mid|, c, d)
  {
    FirstOfTwo(url, pre, a, b, mid, c, d, post);
    assert url[e2..] == post && WrittenAt(url, e + |mid|, c, d) by {
      WrittenAfter(url, pre + "w" + a + "-h" + b + mid, c, d, post);
    }
  }

  /** The first token of a two-token URL, and the text between the tokens. */
  lemma FirstOfTwo(url: string, pre: string, a: string, b: string, mid: string, c: string, d: string, post: string)
    requires |a| >= 1 && |b| >= 1 && AllDigits(a) && AllDigits(b)
    requires mid == [] || !IsDigit(mid[0])
    requires url == pre + "w" + a + "-h" + b + mid + "w" + c + "-h" + d + post
    ensures var e := |pre| + |a| + |b| + 3;
            e + |mid| <= |url| && url[0..|pre|] == pre && url[e..e + |mid|] == mid
    ensures WrittenAt(url, |pre|, a, b)
  {
    var rest := mid + "w" + c + "-h" + d + post;
    var e := |pre| + |a| + |b| + 3;
    Regrouped(url, pre, a, b, mid, c, d, post);
    assert rest == [] || !IsDigit(rest[0]) by {
      if mid == [] { assert rest[0] == 'w'; } else { assert rest[0] == mid[0]; }
    }
    WrittenAfter(url, pre, a, b, rest);
    assert url[e..e + |mid|] == mid by {
      assert url[e..e + |mid|] == url[e..][..|mid|] == rest[..|mid|];
    }
  }

  /** A two-token URL seen as the first token followed by the rest. */
  lemma Regrouped(url: string, pre: string, a: string, b: string, mid: string, c: string, d: string, post: string)
    requires url == pre + "w" + a + "-h" + b + mid + "w" + c + "-h" + d + post
    ensures url == pre + "w" + a + "-h" + b + (mid + "w" + c + "-h" + d + post)
  {
  }

  /** In `url == pre + "w" + a + "-h" + b + rest`, with no digit starting `rest`, the token is written after `pre`. */
  lemma WrittenAfter(url: string, pre: string, a: string, b: string, rest: string)
    requires |a| >= 1 && |b| >= 1 && AllDigits(a) && AllDigits(b)
    requires rest == [] || !IsDigit(rest[0])
    requires url == pre + "w" + a + "-h" + b + rest
    ensures url[..|pre|] == pre && url[0..|pre|] == pre && url[|pre| + |a| + |b| + 3..] == rest
    ensures WrittenAt(url, |pre|, a, b)
  {
    var e := |pre| + |a| + |b| + 3;
    TokenLayout(url, pre, a, b, rest);
    assert url[0..|pre|] == pre;
    assert e == |url| || url[e] == rest[0] by {
      if e < |url| { assert url[e] == url[e..][0]; }
    }
  }

  /** Putting the pieces of a two-token `re.sub` together. */
  lemma Chain(x0: string, x1: string, pre: string, mid: string, post: string, rep: string)
    requires x0 == pre + rep + x1 && x1 == mid + rep + post
    ensures x0 == pre + rep + mid + rep + post
  {
  }

  /** Two different sizes in one URL both take the first one's scaled size. */
  lemma TwoTokensExample(pre: string)
    requires 'w' !in pre
    ensures Rescale(pre + "w1-h2/w3-h4", DefaultScale) == pre + "w7-h14/w7-h14"
  {
    Replacement7x14();
    TwoTokensScaled(pre);
    assert "w7-h14" + "/" + "w7-h14" + "" == "w7-h14/w7-h14";
  }

  lemma Replacement7x14()
    ensures Replacement(7, 14) == "w7-h14"
  {
    NatToDecimalStep(14);
  }

  lemma TwoTokensScaled(pre: string)
    requires 'w' !in pre
    ensures var rep := Replacement(7, 14);
            Rescale(pre + "w1-h2/w3-h4", 7) == pre + rep + "/" + rep + ""
  {
    assert DecimalValue("1") == 1 && DecimalValue("2") == 2;
    var url := pre + "w1-h2/w3-h4";
    assert url == pre + "w" + "1" + "-h" + "2" + "/" + "w" + "3" + "-h" + "4" + "";
    var e := |pre| + 5;
    TwoTokensWritten(url, pre, "1", "2", "/", "3", "4", "", e, e + 6);
    assert NoTokenIn(url, 0, |pre|) && NoTokenIn(url, e, e + 1) by {
      NoWText(url, 0, |pre|, pre);
      NoWText(url, e, e + 1, "/");
    }
    TwoTokens(url, pre, "1", "2", "/", "3", "4", "", 7);
  }
}
