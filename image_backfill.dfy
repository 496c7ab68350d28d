/// `update_images_in_firestore()` (temp.py:39-59): every vendor document the
/// query `where("extracted", "==", True)` streams is visited in order; when its
/// `images` field is a list, each URL in it is rescaled by the default factor
/// and the list is written back. Two things end the run, and nothing catches
/// either, so every earlier write stays made:
/// - an element that is not a string: `re.search` raises `TypeError` while the
///   new list is being built, before the document is updated;
/// - an empty list: right after the write the source prints
///   `data["images"][0]`, which raises `IndexError`.
///
/// temp.py:58-59 nest double-quoted strings inside double-quoted f-strings,
/// which only Python 3.12 and later accept; an older interpreter rejects the
/// whole script before running any of it. The model follows Python 3.12.
///
/// The collection is a class whose `docs` field the update rewrites; the
/// Firestore query is the `extracted` flag, the write is the field assignment.
module ImageBackfill {
  import opened Common
  import ImageUrl

  /** An element of an `images` list: a URL, or any value that is not a string. */
  datatype Item = Url(url: string) | NotText

  /** Every element of the list is a string. */
  predicate AllText(items: seq<Item>) {
    forall i :: 0 <= i < |items| ==> items[i].Url?
  }

  /** The `images` field of a document: absent, some other value, or a list. */
  datatype Images = Missing | NotAList | List(items: seq<Item>)

  datatype VendorDoc = VendorDoc(id: string, extracted: bool, images: Images)

  /**
   * `[resize_google_image_url(url) for url in images]`, with the default
   * factor 7: `None` when the comprehension raises `TypeError` on an element
   * that is not a string.
   */
  function RescaleAll(items: seq<Item>): (r: Option<seq<Item>>)
    ensures r.Some? ==> |r.value| == |items|
  {
    if items == [] then Some([])
    else if items[0].NotText? then None
    else
      match RescaleAll(items[1..])
      case None => None
      case Some(rest) => Some([Url(ImageUrl.Rescale(items[0].url, ImageUrl.DefaultScale))] + rest)
  }

  /** The comprehension raises exactly when some element is not a string. */
  lemma {:induction false} RescaleAllFails(items: seq<Item>)
    ensures RescaleAll(items).Some? <==> AllText(items)
  {
    if items != [] {
      RescaleAllFails(items[1..]);
      if AllText(items[1..]) {
        forall i | 1 <= i < |items| ensures items[i] == items[1..][i - 1] { }
      } else {
        var i :| 0 <= i < |items[1..]| && items[1..][i].NotText?;
        assert items[i + 1].NotText?;
      }
    }
  }

  /** The new list keeps the length and order of the old one, each URL rescaled in place. */
  lemma {:induction false} RescaleAllAt(items: seq<Item>, i: nat)
    requires i < |items| && RescaleAll(items).Some?
    ensures items[i].Url? && RescaleAll(items).value[i] == Url(ImageUrl.Rescale(items[i].url, ImageUrl.DefaultScale))
  {
    if i > 0 {
      RescaleAllAt(items[1..], i - 1);
    }
  }

  /** The documents the loop body works on: streamed by the query, with a list in `images`. */
  predicate Selected(d: VendorDoc) {
    d.extracted && d.images.List?
  }

  /** How the body raises on a selected document. */
  datatype Raise =
    | /** an element is not a string; the document is not updated */ TypeError
    | /** the list is empty; the print after the update fails */ IndexError

  /** The error the loop body raises on `d`, if any. */
  function Raised(d: VendorDoc): (r: Option<Raise>)
    ensures r.Some? ==> Selected(d)
  {
    if !Selected(d) then None
    else if !AllText(d.images.items) then Some(TypeError)
    else if d.images.items == [] then Some(IndexError)
    else None
  }

  /**
   * A selected document raises `TypeError` exactly when its list holds an
   * element that is not a string, and `IndexError` exactly when its list is
   * empty; it raises nothing otherwise.
   */
  lemma RaisedIff(d: VendorDoc)
    ensures Raised(d) == Some(TypeError) <==> Selected(d) && exists i :: 0 <= i < |d.images.items| && d.images.items[i].NotText?
    ensures Raised(d) == Some(IndexError) <==> Selected(d) && d.images.items == []
  {
  }

  /** One document after the loop body: its list rescaled, or the document unchanged. */
  function Backfilled(d: VendorDoc): (r: VendorDoc)
    ensures r.id == d.id && r.extracted == d.extracted
    ensures !Selected(d) || !AllText(d.images.items) ==> r == d
    ensures Selected(d) ==> r.images.List? && |r.images.items| == |d.images.items|
  {
    if Selected(d) && AllText(d.images.items) then
      RescaleAllFails(d.images.items);
      d.(images := List(RescaleAll(d.images.items).value))
    else d
  }

  /** The index of the first document on which the body raises, if any. */
  function FirstRaising(docs: seq<VendorDoc>): (r: Option<nat>)
    ensures r.Some? ==> r.value < |docs| && Raised(docs[r.value]).Some?
    ensures r.Some? ==> forall j :: 0 <= j < r.value ==> Raised(docs[j]).None?
    ensures r.None? ==> forall j :: 0 <= j < |docs| ==> Raised(docs[j]).None?
  {
    if docs == [] then None
    else if Raised(docs[0]).Some? then Some(0)
    else
      match FirstRaising(docs[1..])
      case None => None
      case Some(k) => Some(k + 1)
  }

  /** Whether the loop reached document `j` before stopping at `stop`. */
  predicate Reached(stop: Option<nat>, j: nat) {
    stop.None? || j <= stop.value
  }

  /** The collection after the run, document by document. */
  function AfterRun(docs: seq<VendorDoc>): (r: seq<VendorDoc>)
    ensures |r| == |docs|
  {
    var stop := FirstRaising(docs);
    seq(|docs|, j requires 0 <= j < |docs| => if Reached(stop, j) then Backfilled(docs[j]) else docs[j])
  }

  class VendorCollection {
    var docs: seq<VendorDoc>

    constructor (docs: seq<VendorDoc>)
      ensures this.docs == docs
    {
      this.docs := docs;
    }

    /**
     * `update_images_in_firestore()`: returns the index of the document on
     * which the loop raised, or `None` when it ran to the end.
     */
    method UpdateImages() returns (raisedAt: Option<nat>)
      modifies this
      ensures raisedAt == FirstRaising(old(docs))
      ensures docs == AfterRun(old(docs))
    {
      ghost var before := docs;
      var i := 0;
      while i < |docs|
        invariant 0 <= i <= |docs| == |before|
        invariant forall j :: 0 <= j < i ==> Raised(before[j]).None?
        invariant forall j :: 0 <= j < i ==> docs[j] == Backfilled(before[j])
        invariant forall j :: i <= j < |docs| ==> docs[j] == before[j]
      {
        var d := docs[i];
        if d.extracted && d.images.List? {
          var updated := RescaleAll(d.images.items);
          RescaleAllFails(d.images.items);
          if updated.None? {
            assert Raised(d) == Some(TypeError) && Backfilled(d) == d;
            StoppedAt(before, docs, i);
            return Some(i);
          }
          docs := docs[i := d.(images := List(updated.value))];
          assert docs[i] == Backfilled(d);
          if |d.images.items| == 0 {
            assert Raised(d) == Some(IndexError);
            StoppedAt(before, docs, i);
            return Some(i);
          }
          assert Raised(d).None?;
        } else {
          assert Raised(d).None? && Backfilled(d) == d;
        }
        i := i + 1;
      }
      StoppedAt(before, docs, |before|);
      return None;
    }
  }

  /** `FirstRaising` is the first index whose body raises, or none when no index below the end does. */
  lemma FirstRaisingIs(docs: seq<VendorDoc>, i: nat)
    requires i <= |docs|
    requires forall j :: 0 <= j < i ==> Raised(docs[j]).None?
    requires i < |docs| ==> Raised(docs[i]).Some?
    ensures FirstRaising(docs) == if i < |docs| then Some(i) else None
  {
    var r := FirstRaising(docs);
    if r.Some? {
      assert r.value >= i;
    }
  }

  /**
   * The collection left by a loop that processed the documents before `i`
   * and then raised on document `i` (or ran to the end when `i` is the
   * length) is `AfterRun`.
   */
  lemma StoppedAt(before: seq<VendorDoc>, after: seq<VendorDoc>, i: nat)
    requires i <= |before| == |after|
    requires forall j :: 0 <= j < i ==> Raised(before[j]).None? && after[j] == Backfilled(before[j])
    requires i < |before| ==> Raised(before[i]).Some? && after[i] == Backfilled(before[i])
    requires forall j :: i < j < |before| ==> after[j] == before[j]
    ensures FirstRaising(before) == if i < |before| then Some(i) else None
    ensures after == AfterRun(before)
  {
    FirstRaisingIs(before, i);
    var stop := if i < |before| then Some(i) else None;
    forall j | 0 <= j < |before| ensures after[j] == if Reached(stop, j) then Backfilled(before[j]) else before[j] {
      if j <= i {
        assert Reached(stop, j);
      } else {
        assert !Reached(stop, j);
      }
    }
    SameRun(before, after, stop);
  }

  /** A collection that agrees with `AfterRun` document by document is `AfterRun`. */
  lemma SameRun(before: seq<VendorDoc>, after: seq<VendorDoc>, stop: Option<nat>)
    requires |before| == |after| && stop == FirstRaising(before)
    requires forall j :: 0 <= j < |before| ==> after[j] == if Reached(stop, j) then Backfilled(before[j]) else before[j]
    ensures after == AfterRun(before)
  {
  }

  /** The run changes only the `images` of selected documents, and only by rescaling each URL. */
  lemma OnlyImagesChange(docs: seq<VendorDoc>, j: nat)
    requires j < |docs|
    ensures AfterRun(docs)[j].id == docs[j].id && AfterRun(docs)[j].extracted == docs[j].extracted
    ensures !Selected(docs[j]) ==> AfterRun(docs)[j] == docs[j]
    ensures Selected(docs[j]) ==> AfterRun(docs)[j].images.List?
    ensures Selected(docs[j]) && Reached(FirstRaising(docs), j) && Raised(docs[j]) != Some(TypeError) ==>
              forall i :: 0 <= i < |docs[j].images.items| ==>
                docs[j].images.items[i].Url?
                && AfterRun(docs)[j].images.items[i] == Url(ImageUrl.Rescale(docs[j].images.items[i].url, ImageUrl.DefaultScale))
  {
    if Selected(docs[j]) && Reached(FirstRaising(docs), j) && Raised(docs[j]) != Some(TypeError) {
      var items := docs[j].images.items;
      RescaleAllFails(items);
      forall i | 0 <= i < |items|
        ensures items[i].Url? && AfterRun(docs)[j].images.items[i] == Url(ImageUrl.Rescale(items[i].url, ImageUrl.DefaultScale))
      {
        RescaleAllAt(items, i);
      }
    }
  }

  /**
   * A document holding an element that is not a string stops the run
   * unchanged: the `TypeError` comes before its update.
   */
  lemma NotTextStopsUnchanged(docs: seq<VendorDoc>, j: nat)
    requires j < |docs| && FirstRaising(docs) == Some(j)
    requires Selected(docs[j]) && exists i :: 0 <= i < |docs[j].images.items| && docs[j].images.items[i].NotText?
    ensures Raised(docs[j]) == Some(TypeError)
    ensures AfterRun(docs)[j] == docs[j]
  {
    RaisedIff(docs[j]);
  }

  /** Documents after the one that raised keep their old images. */
  lemma AfterStopUnchanged(docs: seq<VendorDoc>, j: nat)
    requires j < |docs| && FirstRaising(docs).Some? && FirstRaising(docs).value < j
    ensures AfterRun(docs)[j] == docs[j]
  {
  }

  /**
   * With no empty list and no element that is not a string among the
   * selected documents, every selected document is rescaled.
   */
  lemma NoRaiseAllUpdated(docs: seq<VendorDoc>)
    requires forall j :: 0 <= j < |docs| && Selected(docs[j]) ==> docs[j].images.items != [] && AllText(docs[j].images.items)
    ensures AfterRun(docs) == seq(|docs|, j requires 0 <= j < |docs| => Backfilled(docs[j]))
  {
    assert FirstRaising(docs).None?;
  }

  /** A list of URLs with no `w<digits>-h<digits>` token anywhere is written back unchanged. */
  lemma {:induction false} PlainUrlsUnchanged(items: seq<Item>)
    requires forall i :: 0 <= i < |items| ==> items[i].Url? && ImageUrl.NoTokenIn(items[i].url, 0, |items[i].url|)
    ensures RescaleAll(items) == Some(items)
  {
    if items != [] {
      ImageUrl.NoTokenUnchanged(items[0].url, ImageUrl.DefaultScale);
      PlainUrlsUnchanged(items[1..]);
      assert items == [items[0]] + items[1..];
    }
  }
}
