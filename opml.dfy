/** The entry-selection rules of feed-list import and export. A document is
    the sequence of elements the XML reader reports, each reduced to what
    the import looks at; tokenisation and file access are not modelled. */
module Opml {
  import opened Values

  /** One element of an outline document: whether it is an `outline` start
      element, its `xmlUrl` attribute if present, whether the URL parser
      accepts that attribute, and its `text` attribute if present. */
  datatype Element = Element(isOutline: bool, xmlUrl: Option<string>, urlValid: bool, text: Option<string>)

  /** A feed as handed to storage: display name and source URL. */
  datatype FeedInfo = FeedInfo(name: string, url: Url)

  /** The provisional feed an element yields, if it is accepted: only an
      outline with a parsable `xmlUrl`; its name is the `text` attribute,
      or empty when there is none. */
  function Accept(e: Element): (r: Option<FeedInfo>)
    ensures r.Some? <==> e.isOutline && e.xmlUrl.Some? && e.urlValid
    ensures r.Some? ==> r.value.url.valid && r.value.url.spelling == e.xmlUrl.value
    ensures r.Some? && e.text.Some? ==> r.value.name == e.text.value
  {
    if !e.isOutline then None
    else if e.xmlUrl.None? then None
    else if !e.urlValid then None
    else Some(FeedInfo(e.text.GetOr(""), Url(e.xmlUrl.value, true)))
  }

  function AcceptedAsSeq(e: Element): seq<FeedInfo> {
    if Accept(e).Some? then [Accept(e).value] else []
  }

  /** The feeds an import adds, one per accepted element, in document order. */
  function ImportedFeeds(doc: seq<Element>): (r: seq<FeedInfo>)
    ensures |r| <= |doc|
    ensures forall i :: 0 <= i < |r| ==> r[i].url.valid
  {
    if doc == [] then []
    else ImportedFeeds(doc[..|doc| - 1]) + AcceptedAsSeq(doc[|doc| - 1])
  }

  /** Import works element by element: a document split in two imports as
      its halves do, one after the other. */
  lemma {:induction false} ImportedFeedsAppend(a: seq<Element>, b: seq<Element>)
    ensures ImportedFeeds(a + b) == ImportedFeeds(a) + ImportedFeeds(b)
    decreases |b|
  {
    if b == [] {
      assert a + b == a;
    } else {
      var b' := b[..|b| - 1];
      assert (a + b)[..|a + b| - 1] == a + b';
      assert (a + b)[|a + b| - 1] == b[|b| - 1];
      ImportedFeedsAppend(a, b');
    }
  }

  /** A feed is imported exactly when some element of the document yields it. */
  lemma {:induction false} ImportedFeedsMembers(doc: seq<Element>, f: FeedInfo)
    ensures f in ImportedFeeds(doc) <==> exists i :: 0 <= i < |doc| && Accept(doc[i]) == Some(f)
  {
    if doc != [] {
      var init := doc[..|doc| - 1];
      ImportedFeedsMembers(init, f);
      if exists i :: 0 <= i < |doc| && Accept(doc[i]) == Some(f) {
        var i :| 0 <= i < |doc| && Accept(doc[i]) == Some(f);
        if i < |init| {
          assert init[i] == doc[i];
        }
      }
      if f in ImportedFeeds(init) {
        var i :| 0 <= i < |init| && Accept(init[i]) == Some(f);
        assert doc[i] == init[i];
      }
    }
  }

  /** One outline with a valid `xmlUrl` and one without any `xmlUrl` import
      as exactly one feed, the valid one. */
  lemma ImportSkipsEntryWithoutUrl(name: string, url: string)
    ensures ImportedFeeds([Element(true, Some(url), true, Some(name)), Element(true, None, false, None)])
            == [FeedInfo(name, Url(url, true))]
  {
    var doc := [Element(true, Some(url), true, Some(name)), Element(true, None, false, None)];
    assert doc[..1][..0] == [];
  }

  /** The outline element written for one feed. */
  function ExportEntry(f: FeedInfo): (e: Element)
    ensures e.isOutline && e.text == Some(f.name) && e.xmlUrl == Some(f.url.spelling)
  {
    Element(true, Some(f.url.spelling), f.url.valid, Some(f.name))
  }

  /** The elements written for a list of feeds, one per feed, in order. */
  function ExportEntries(fs: seq<FeedInfo>): (doc: seq<Element>)
    ensures |doc| == |fs|
    ensures forall i :: 0 <= i < |fs| ==> doc[i] == ExportEntry(fs[i])
  {
    seq(|fs|, i requires 0 <= i < |fs| => ExportEntry(fs[i]))
  }

  /** Exporting one more feed appends one more element. */
  lemma ExportEntriesAppend(fs: seq<FeedInfo>, f: FeedInfo)
    ensures ExportEntries(fs + [f]) == ExportEntries(fs) + [ExportEntry(f)]
  {
    assert forall i :: 0 <= i < |fs| ==> (fs + [f])[i] == fs[i];
  }

  /** The feeds among `fs` whose URL is valid, in order. */
  function WithValidUrl(fs: seq<FeedInfo>): (r: seq<FeedInfo>)
    ensures |r| <= |fs|
    ensures forall f :: f in r <==> f in fs && f.url.valid
  {
    if fs == [] then []
    else WithValidUrl(fs[..|fs| - 1]) + (if fs[|fs| - 1].url.valid then [fs[|fs| - 1]] else [])
  }

  /** Importing an exported feed list adds every exported feed whose URL is
      valid, with the same name and URL, in the exported order. */
  lemma {:induction false} ImportOfExport(fs: seq<FeedInfo>)
    ensures ImportedFeeds(ExportEntries(fs)) == WithValidUrl(fs)
    decreases |fs|
  {
    if fs != [] {
      var init := fs[..|fs| - 1];
      var doc := ExportEntries(fs);
      assert doc[..|doc| - 1] == ExportEntries(init);
      ImportOfExport(init);
    }
  }
}
