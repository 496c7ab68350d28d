/// Email discovery on a business website: `extract_emails_from_website`
/// (extractor2.py:53-74, new2.py:50-72), its older single-result form
/// `extract_email_from_website` (new.py:77-93), and the field defaulting of
/// `get_business_details` (new.py:23-74).
///
/// The page fetch, the HTML-to-text step and the regular expression `findall`
/// are one outside step: a function from the URL to either a failure (any
/// exception) or the matches in page order. Python's `list(set(...))` yields
/// the distinct matches in an order the hash function decides; it is a
/// parameter too, required to list each match exactly once.
module Emails {
  import opened Common

  /** What fetching a page and running `findall` on its text gives. */
  datatype Fetch = Failed | Page(matches: seq<string>)

  /** `(email, additional_emails)`, either of which may be `None`. */
  datatype EmailPair = EmailPair(primary: Option<string>, additional: Option<string>)

  const NoEmails: EmailPair := EmailPair(None, None)

  /** `url if url.startswith("http") else "http://" + url` */
  function WithScheme(url: string): (r: string)
    ensures StartsWith(r, "http")
    ensures |r| >= |url| && r[|r| - |url|..] == url
    ensures r == url <==> StartsWith(url, "http")
    ensures r == url || r == "http://" + url
  {
    if StartsWith(url, "http") then url else "http://" + url
  }

  /** Adding the scheme twice changes nothing. */
  lemma WithSchemeIdempotent(url: string)
    ensures WithScheme(WithScheme(url)) == WithScheme(url)
  {
  }

  /** A stand-in for `list(set(xs))`: each element of `xs` exactly once, in some order. */
  ghost predicate IsSetIteration(setIter: seq<string> -> seq<string>) {
    forall xs :: NoDup(setIter(xs)) && (forall e :: e in setIter(xs) <==> e in xs)
  }

  /**
   * `extract_emails_from_website(url)`: nothing for an empty or absent URL
   * or a failed fetch; otherwise the first distinct match and the others
   * joined with `", "`, or nothing when the page has no match.
   */
  function ExtractEmails(url: Option<string>, fetch: string -> Fetch, setIter: seq<string> -> seq<string>): (r: EmailPair)
    requires IsSetIteration(setIter)
    ensures url.None? || url.value == "" ==> r == NoEmails
    ensures r.primary.Some? <==> r.additional.Some?
    ensures r.primary.Some? ==>
              url.Some? && fetch(WithScheme(url.value)).Page? && r.primary.value in fetch(WithScheme(url.value)).matches
  {
    if url.None? || url.value == "" then NoEmails
    else
      match fetch(WithScheme(url.value))
      case Failed => NoEmails
      case Page(matches) =>
        var emails := setIter(matches);
        if emails == [] then NoEmails
        else EmailPair(Some(emails[0]), Some(if |emails| > 1 then Join(emails[1..], ", ") else ""))
  }

  /** No emails exactly when there is no URL, the fetch fails, or the page has no match. */
  lemma NoEmailsIff(url: Option<string>, fetch: string -> Fetch, setIter: seq<string> -> seq<string>)
    requires IsSetIteration(setIter)
    ensures ExtractEmails(url, fetch, setIter) == NoEmails <==>
              url.None? || url.value == "" || fetch(WithScheme(url.value)).Failed? || fetch(WithScheme(url.value)).matches == []
  {
    if url.Some? && url.value != "" && fetch(WithScheme(url.value)).Page? {
      var matches := fetch(WithScheme(url.value)).matches;
      if matches != [] {
        assert matches[0] in setIter(matches);
      }
    }
  }

  /**
   * When emails are found, the primary and the additional ones are the
   * distinct matches `es`, each once: the primary is `es[0]`, the rest are
   * joined in order and never repeat the primary.
   */
  lemma FoundEmails(url: string, fetch: string -> Fetch, setIter: seq<string> -> seq<string>) returns (es: seq<string>)
    requires IsSetIteration(setIter)
    requires ExtractEmails(Some(url), fetch, setIter) != NoEmails
    ensures |es| >= 1 && NoDup(es) && es[0] !in es[1..]
    ensures fetch(WithScheme(url)).Page? && forall e :: e in es <==> e in fetch(WithScheme(url)).matches
    ensures ExtractEmails(Some(url), fetch, setIter) == EmailPair(Some(es[0]), Some(Join(es[1..], ", ")))
  {
    es := setIter(fetch(WithScheme(url)).matches);
    assert es[0] !in es[1..] by {
      forall j | 0 <= j < |es| - 1 ensures es[1..][j] != es[0] {
        assert es[1..][j] == es[j + 1];
      }
    }
  }

  /** A page whose matches are all the same address gives that address and no additional ones. */
  lemma SingleDistinctEmail(url: string, fetch: string -> Fetch, setIter: seq<string> -> seq<string>, e: string)
    requires IsSetIteration(setIter) && url != ""
    requires fetch(WithScheme(url)).Page? && e in fetch(WithScheme(url)).matches
    requires forall m :: m in fetch(WithScheme(url)).matches ==> m == e
    ensures ExtractEmails(Some(url), fetch, setIter) == EmailPair(Some(e), Some(""))
  {
    var es := setIter(fetch(WithScheme(url)).matches);
    assert e in es;
    assert forall i :: 0 <= i < |es| ==> es[i] in es;
  }

  /** Joining comma-free parts with `", "` puts one comma between each two parts. */
  lemma {:induction false} JoinedCommas(xs: seq<string>)
    requires |xs| >= 1 && forall i :: 0 <= i < |xs| ==> ',' !in xs[i]
    ensures CountChar(Join(xs, ", "), ',') == |xs| - 1
  {
    if |xs| == 1 {
      CountCharAbsent(xs[0], ',');
    } else {
      JoinedCommas(xs[1..]);
      CountCharAppend(xs[0] + ", ", Join(xs[1..], ", "), ',');
      CountCharAppend(xs[0], ", ", ',');
      CountCharAbsent(xs[0], ',');
    }
  }

  /**
   * The email pattern admits no comma, so with `k` distinct matches the
   * additional emails hold `k - 2` commas: the other `k - 1` addresses.
   */
  lemma AdditionalCount(url: string, fetch: string -> Fetch, setIter: seq<string> -> seq<string>) returns (k: nat)
    requires IsSetIteration(setIter)
    requires ExtractEmails(Some(url), fetch, setIter) != NoEmails
    requires forall m :: m in fetch(WithScheme(url)).matches ==> ',' !in m
    ensures k >= 1
    ensures k >= 2 ==> CountChar(ExtractEmails(Some(url), fetch, setIter).additional.value, ',') == k - 2
    ensures k == 1 ==> ExtractEmails(Some(url), fetch, setIter).additional == Some("")
  {
    var es := FoundEmails(url, fetch, setIter);
    k := |es|;
    if k >= 2 {
      JoinedCommas(es[1..]);
    }
  }

  const EmailNotFound: string := "Email Not Found"

  /**
   * `extract_email_from_website(url)` of new.py: the first match in page
   * order, with no deduplication, or the sentinel on no match or failure.
   */
  function ExtractEmail(url: string, fetch: string -> Fetch): (r: string)
    ensures r == EmailNotFound || (fetch(WithScheme(url)).Page? && |fetch(WithScheme(url)).matches| > 0 && r == fetch(WithScheme(url)).matches[0])
    ensures fetch(WithScheme(url)).Failed? ==> r == EmailNotFound
  {
    match fetch(WithScheme(url))
    case Failed => EmailNotFound
    case Page(matches) => if matches == [] then EmailNotFound else matches[0]
  }

  /**
   * The two extractors agree on whether a non-empty URL has an email, and
   * new.py's single result is one of the addresses extractor2.py reports.
   */
  lemma ExtractorsAgree(url: string, fetch: string -> Fetch, setIter: seq<string> -> seq<string>)
    requires IsSetIteration(setIter) && url != ""
    requires fetch(WithScheme(url)).Page? ==> EmailNotFound !in fetch(WithScheme(url)).matches
    ensures ExtractEmail(url, fetch) == EmailNotFound <==> ExtractEmails(Some(url), fetch, setIter) == NoEmails
    ensures ExtractEmail(url, fetch) != EmailNotFound ==>
              var r := ExtractEmails(Some(url), fetch, setIter);
              r.primary.Some? && r.primary.value in fetch(WithScheme(url)).matches
              && ExtractEmail(url, fetch) in setIter(fetch(WithScheme(url)).matches)
  {
    NoEmailsIff(Some(url), fetch, setIter);
    if fetch(WithScheme(url)).Page? && fetch(WithScheme(url)).matches != [] {
      assert fetch(WithScheme(url)).matches[0] in fetch(WithScheme(url)).matches;
    }
  }

  /** A page element looked up with `soup.find`: missing, or present with its text. */
  datatype Element = Absent | Found(text: string)

  /** The website anchor: missing, present without `href`, or its `href`. */
  datatype Anchor = NoAnchor | NoHref | Href(url: string)

  /** The Maps page as the driver loads it, or a failure while loading. */
  datatype MapsPage = LoadFailed | Loaded(name: Element, address: Element, phone: Element, website: Anchor)

  datatype BusinessDetails = BusinessDetails(
    name: string, address: string, phone: string, website: string, placeId: string, email: string)

  const NotAvailable: string := "N/A"

  /** new.py:28 */
  function MapsUrl(placeId: string): (r: string)
    ensures |r| >= |placeId| && r[|r| - |placeId|..] == placeId
  {
    "https://www.google.com/maps/place/?q=place_id:" + placeId
  }

  /** `soup.find(...).text.strip()`, or `"N/A"` when the element is missing. */
  function FieldText(e: Element): (r: string)
    ensures e.Absent? ==> r == NotAvailable
    ensures e.Found? ==> r == Strip(e.text)
  {
    match e
    case Absent => NotAvailable
    case Found(t) => Strip(t)
  }

  /**
   * `get_business_details(place_id)`: `None` when loading the page fails, or
   * when the anchor has no `href` (the `None` URL then fails `startswith`
   * inside the outer `try`); otherwise each missing field is `"N/A"`, and the
   * email is fetched only when the website is not `"N/A"`.
   */
  function GetBusinessDetails(placeId: string, load: string -> MapsPage, fetch: string -> Fetch): (r: Option<BusinessDetails>)
    ensures var page := load(MapsUrl(placeId));
      r.None? <==> page.LoadFailed? || page.website.NoHref?
    ensures r.Some? ==>
              var page := load(MapsUrl(placeId));
              var d := r.value;
              d.placeId == placeId
              && d.name == FieldText(page.name) && d.address == FieldText(page.address) && d.phone == FieldText(page.phone)
              && (page.website.NoAnchor? ==> d.website == NotAvailable)
              && (page.website.Href? ==> d.website == page.website.url)
              && (d.website == NotAvailable ==> d.email == NotAvailable)
              && (d.website != NotAvailable ==> d.email == ExtractEmail(d.website, fetch))
  {
    match load(MapsUrl(placeId))
    case LoadFailed => None
    case Loaded(name, address, phone, anchor) =>
      match anchor
      case NoHref => None
      case NoAnchor =>
        Some(BusinessDetails(FieldText(name), FieldText(address), FieldText(phone), NotAvailable, placeId, NotAvailable))
      case Href(website) =>
        Some(BusinessDetails(
          FieldText(name), FieldText(address), FieldText(phone), website, placeId,
          if website != NotAvailable then ExtractEmail(website, fetch) else NotAvailable))
  }

  /** A loaded page with none of the four elements gives `"N/A"` everywhere but the place id. */
  lemma NothingOnPage(placeId: string, load: string -> MapsPage, fetch: string -> Fetch)
    requires load(MapsUrl(placeId)) == Loaded(Absent, Absent, Absent, NoAnchor)
    ensures GetBusinessDetails(placeId, load, fetch) ==
              Some(BusinessDetails(NotAvailable, NotAvailable, NotAvailable, NotAvailable, placeId, NotAvailable))
  {
  }

  /** With a website, the email is new.py's extractor on it: a match of the fetched page or the sentinel. */
  lemma DetailsEmail(placeId: string, load: string -> MapsPage, fetch: string -> Fetch)
    requires GetBusinessDetails(placeId, load, fetch).Some?
    ensures var d := GetBusinessDetails(placeId, load, fetch).value;
      d.email == NotAvailable || d.email == EmailNotFound
      || (fetch(WithScheme(d.website)).Page? && d.email in fetch(WithScheme(d.website)).matches)
  {
  }
}
