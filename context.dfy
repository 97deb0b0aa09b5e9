/** The aggregate root: the set of subscribed feeds, the process-wide
    default update interval and expiry age, the scheduler's registry and
    the requests handed to storage. Storage answers asynchronously; its
    answer is delivered by a call of PopulateFeeds. */
module Contexts {
  import opened Values
  import opened Updaters
  import opened Opml

  datatype ContextSignal = FeedAdded(feed: Feed) | DefaultUpdateIntervalChanged | ExpireAgeChanged

  /** What storage and the feed-list export see of a feed. */
  function InfoOf(f: Feed): FeedInfo
    reads f`name, f`url
  {
    FeedInfo(f.name, f.url)
  }

  function Infos(order: seq<Feed>): (r: seq<FeedInfo>)
    reads set f | f in order
    ensures |r| == |order|
    ensures forall i :: 0 <= i < |order| ==> r[i] == InfoOf(order[i])
    decreases |order|
  {
    if order == [] then []
    else Infos(order[..|order| - 1]) + [InfoOf(order[|order| - 1])]
  }

  /** An updater's state after the context configures it with default
      interval `d`: a Default-mode feed takes `d`, any other is untouched. */
  function Configured(s: UpdaterData, d: int): (r: UpdaterData)
    ensures r.updateMode == s.updateMode
    ensures r.updateMode == DefaultUpdateMode ==> r.updateInterval == d
    ensures r.updateMode != DefaultUpdateMode ==> r == s
    ensures r == s.(updateInterval := r.updateInterval)
  {
    if s.updateMode == DefaultUpdateMode then s.(updateInterval := d) else s
  }

  /** The signal an updater in state `s` emits when configured with `d`. */
  function IntervalSignals(s: UpdaterData, d: int): (e: seq<UpdaterEvent>)
    ensures e == [UpdateIntervalChanged] <==> s.updateMode == DefaultUpdateMode && s.updateInterval != d
    ensures e == [] <==> Configured(s, d) == s
  {
    if s.updateMode == DefaultUpdateMode then Emitted(StoreIfChanged(s.updateInterval, d), UpdateIntervalChanged)
    else []
  }

  /** Configuring twice with the same default changes and emits nothing the
      second time. */
  lemma ConfiguredIdempotent(s: UpdaterData, d: int)
    ensures Configured(Configured(s, d), d) == Configured(s, d)
    ensures IntervalSignals(Configured(s, d), d) == []
  {}

  /** An updater's state after PopulateFeeds: the context's expiry age,
      then the Default-mode interval rule. */
  function Adopted(s: UpdaterData, e: int, d: int): (r: UpdaterData)
    ensures r.expireAge == e && r.updateMode == s.updateMode
    ensures r.updateInterval == if s.updateMode == DefaultUpdateMode then d else s.updateInterval
    ensures r == s.(expireAge := r.expireAge, updateInterval := r.updateInterval)
  {
    Configured(s.(expireAge := e), d)
  }

  /** A feed that occurs twice in a storage answer is adopted the second
      time without change and without a signal. */
  lemma AdoptedIdempotent(s: UpdaterData, e: int, d: int)
    ensures Adopted(Adopted(s, e, d), e, d) == Adopted(s, e, d)
    ensures IntervalSignals(Adopted(s, e, d), d) == []
    ensures IntervalSignals(s.(expireAge := e), d) == IntervalSignals(s, d)
  {}

  function Announced(fs: seq<Feed>): (e: seq<ContextSignal>)
    ensures |e| == |fs| && forall i :: 0 <= i < |fs| ==> e[i] == FeedAdded(fs[i])
  {
    seq(|fs|, i requires 0 <= i < |fs| => FeedAdded(fs[i]))
  }

  /** Announcing one more feed appends one more signal. */
  lemma AnnouncedAppend(fs: seq<Feed>, f: Feed)
    ensures Announced(fs + [f]) == Announced(fs) + [FeedAdded(f)]
  {
    assert forall i :: 0 <= i < |fs| ==> (fs + [f])[i] == fs[i];
  }

  class Context {
    var feeds: set<Feed>
    /** The default update interval every Default-mode feed follows. */
    var updateInterval: int
    var expireAge: int
    /** The scheduler's registry: the feeds it checks for due updates. */
    var scheduled: set<Feed>
    /** The feeds handed to storage to be stored, oldest first. */
    var storeRequests: seq<FeedInfo>
    /** Signals emitted, oldest first. */
    ghost var events: seq<ContextSignal>

    /** Every held feed's updater points back at it. */
    ghost predicate Valid()
      reads this`feeds, UpdaterSet()`feed
    {
      forall f :: f in feeds ==> f.Wired()
    }

    ghost function UpdaterSet(): set<Updater>
      reads this`feeds
    {
      set f | f in feeds :: f.updater
    }

    constructor ()
      ensures Valid()
      ensures feeds == {} && scheduled == {} && storeRequests == [] && events == []
      ensures updateInterval == 0 && expireAge == 0
    {
      feeds := {};
      updateInterval := 0;
      expireAge := 0;
      scheduled := {};
      storeRequests := [];
      events := [];
    }

    /** Apply the feed's update mode: a Default-mode feed takes the default
        interval; a Manual-mode feed leaves the scheduler, any other joins
        it. `timestamp` is the scheduler's reference time. */
    method ConfigureUpdates(feed: Feed, timestamp: int)
      modifies this`scheduled, feed.updater`d, feed.updater`events
      ensures feed.updater.d == Configured(old(feed.updater.d), updateInterval)
      ensures feed.updater.events == old(feed.updater.events) + IntervalSignals(old(feed.updater.d), updateInterval)
      ensures scheduled == if feed.updater.d.updateMode == ManualUpdateMode then old(scheduled) - {feed}
                           else old(scheduled) + {feed}
    {
      var updateMode := feed.updater.d.updateMode;
      if updateMode == DefaultUpdateMode {
        feed.updater.SetUpdateInterval(updateInterval);
      }
      if updateMode == ManualUpdateMode {
        scheduled := scheduled - {feed};
      } else {
        scheduled := scheduled + {feed};
      }
    }

    /** Hand a feed to storage. The feed set is not touched: the stored
        feeds join it only when storage's answer reaches PopulateFeeds. */
    method AddFeed(feed: Feed)
      modifies this`storeRequests
      ensures storeRequests == old(storeRequests) + [InfoOf(feed)]
    {
      storeRequests := storeRequests + [InfoOf(feed)];
    }

    /** Start an update of every feed at one shared timestamp. */
    method RequestUpdate(timestamp: int)
      requires Valid()
      modifies UpdaterSet()`d, UpdaterSet()`events, feeds`status
      ensures Valid()
      ensures forall f :: f in feeds ==>
                && f.updater.d == old(f.updater.d).(updateStartTime := At(timestamp))
                && f.status == Updating
                && f.updater.events == old(f.updater.events) + (if old(f.status) != Updating then [RunCalled] else [])
    {
      var rest := feeds;
      while rest != {}
        invariant rest <= feeds
        invariant forall f :: f in feeds && f !in rest ==>
                    && f.updater.d == old(f.updater.d).(updateStartTime := At(timestamp))
                    && f.status == Updating
                    && f.updater.events == old(f.updater.events) + (if old(f.status) != Updating then [RunCalled] else [])
        invariant forall f :: f in rest ==>
                    f.updater.d == old(f.updater.d) && f.status == old(f.status)
                    && f.updater.events == old(f.updater.events)
      {
        var f :| f in rest;
        f.updater.Start(timestamp);
        rest := rest - {f};
      }
    }

    /** Ask every feed's fetch code to cancel. */
    method AbortUpdates()
      requires Valid()
      modifies UpdaterSet()`events
      ensures Valid()
      ensures forall f :: f in feeds ==>
                f.updater.d == old(f.updater.d) && f.updater.events == old(f.updater.events) + [AbortCalled]
    {
      var rest := feeds;
      while rest != {}
        invariant rest <= feeds
        invariant forall f :: f in feeds && f !in rest ==>
                    f.updater.d == old(f.updater.d) && f.updater.events == old(f.updater.events) + [AbortCalled]
        invariant forall f :: f in rest ==>
                    f.updater.d == old(f.updater.d) && f.updater.events == old(f.updater.events)
      {
        var f :| f in rest;
        f.updater.Abort();
        rest := rest - {f};
      }
    }

    /** Change the default interval and apply it to every Default-mode feed;
        asking for the current value does nothing. */
    method SetDefaultUpdateInterval(defaultUpdateInterval: int)
      requires Valid()
      modifies this`updateInterval, this`events, UpdaterSet()`d, UpdaterSet()`events
      ensures Valid() && updateInterval == defaultUpdateInterval
      ensures old(updateInterval) == defaultUpdateInterval ==>
                && events == old(events)
                && forall f :: f in feeds ==>
                     f.updater.d == old(f.updater.d) && f.updater.events == old(f.updater.events)
      ensures old(updateInterval) != defaultUpdateInterval ==>
                && events == old(events) + [DefaultUpdateIntervalChanged]
                && forall f :: f in feeds ==>
                     && f.updater.d == Configured(old(f.updater.d), defaultUpdateInterval)
                     && f.updater.events == old(f.updater.events)
                                            + IntervalSignals(old(f.updater.d), defaultUpdateInterval)
    {
      if updateInterval == defaultUpdateInterval {
        return;
      }
      updateInterval := defaultUpdateInterval;
      var rest := feeds;
      while rest != {}
        modifies UpdaterSet()`d, UpdaterSet()`events
        invariant rest <= feeds
        invariant forall f :: f in feeds && f !in rest ==>
                    && f.updater.d == Configured(old(f.updater.d), defaultUpdateInterval)
                    && f.updater.events == old(f.updater.events)
                                           + IntervalSignals(old(f.updater.d), defaultUpdateInterval)
        invariant forall f :: f in rest ==>
                    f.updater.d == old(f.updater.d) && f.updater.events == old(f.updater.events)
      {
        var f :| f in rest;
        if f.updater.d.updateMode == DefaultUpdateMode {
          f.updater.SetUpdateInterval(defaultUpdateInterval);
        }
        rest := rest - {f};
      }
      events := events + [DefaultUpdateIntervalChanged];
    }

    /** Change the expiry age and hand it to every feed; asking for the
        current value does nothing. */
    method SetExpireAge(expireAge: int)
      requires Valid()
      modifies this`expireAge, this`events, UpdaterSet()`d
      ensures Valid() && this.expireAge == expireAge
      ensures old(this.expireAge) == expireAge ==>
                && events == old(events)
                && forall f :: f in feeds ==> f.updater.d == old(f.updater.d)
      ensures old(this.expireAge) != expireAge ==>
                && events == old(events) + [ExpireAgeChanged]
                && forall f :: f in feeds ==> f.updater.d == old(f.updater.d).(expireAge := expireAge)
      ensures forall f :: f in feeds ==> f.updater.events == old(f.updater.events)
    {
      if this.expireAge == expireAge {
        return;
      }
      this.expireAge := expireAge;
      var rest := feeds;
      while rest != {}
        modifies UpdaterSet()`d
        invariant rest <= feeds
        invariant forall f :: f in feeds && f !in rest ==>
                    f.updater.d == old(f.updater.d).(expireAge := expireAge)
                    && f.updater.events == old(f.updater.events)
        invariant forall f :: f in rest ==>
                    f.updater.d == old(f.updater.d) && f.updater.events == old(f.updater.events)
      {
        var f :| f in rest;
        f.updater.SetExpireAge(expireAge);
        rest := rest - {f};
      }
      events := events + [ExpireAgeChanged];
    }

    /** The loop body of PopulateFeeds for one feed. */
    method Adopt(feed: Feed, timestamp: int)
      requires Valid() && feed.Wired()
      modifies this`feeds, this`scheduled, this`events, feed.updater`d, feed.updater`events
      ensures Valid()
      ensures feeds == old(feeds) + {feed}
      ensures feed.updater.d == Adopted(old(feed.updater.d), expireAge, updateInterval)
      ensures feed.updater.events == old(feed.updater.events) + IntervalSignals(old(feed.updater.d), updateInterval)
      ensures scheduled == if feed.updater.d.updateMode == ManualUpdateMode then old(scheduled) - {feed}
                           else old(scheduled) + {feed}
      ensures events == old(events) + [FeedAdded(feed)]
    {
      feeds := feeds + {feed};
      feed.updater.SetExpireAge(expireAge);
      ConfigureUpdates(feed, timestamp);
      events := events + [FeedAdded(feed)];
    }

    /** Take in the feeds storage returned: each joins the set, receives
        the context's expiry age, is configured for updates, and is
        announced once per occurrence in `fs`. Feeds already held stay. */
    method PopulateFeeds(fs: seq<Feed>, timestamp: int)
      requires Valid()
      requires forall f :: f in fs ==> f.Wired()
      modifies this`feeds, this`scheduled, this`events
      modifies (set f | f in fs :: f.updater)`d, (set f | f in fs :: f.updater)`events
      ensures Valid()
      ensures forall f :: f in fs ==> f.Wired()
      ensures feeds == old(feeds) + (set f | f in fs)
      ensures forall f :: f in fs ==>
                && f.updater.d == Adopted(old(f.updater.d), expireAge, updateInterval)
                && (f in scheduled <==> f.updater.d.updateMode != ManualUpdateMode)
      ensures forall f :: f !in fs ==> (f in scheduled <==> f in old(scheduled))
      ensures events == old(events) + Announced(fs)
    {
      ghost var done: set<Feed> := {};
      for i := 0 to |fs|
        invariant forall f :: f in feeds ==> f.updater.feed == f
        invariant done == set f | f in fs[..i]
        invariant feeds == old(feeds) + done
        invariant forall f :: f in fs ==>
                    && f.updater.d == old(f.updater.d).(expireAge := f.updater.d.expireAge,
                                                       updateInterval := f.updater.d.updateInterval)
                    && (old(f.updater.d).updateMode != DefaultUpdateMode ==>
                          f.updater.d.updateInterval == old(f.updater.d).updateInterval)
        invariant forall f :: f in done ==>
                    && f.updater.d.expireAge == expireAge
                    && (f.updater.d.updateMode == DefaultUpdateMode ==> f.updater.d.updateInterval == updateInterval)
                    && (f in scheduled <==> f.updater.d.updateMode != ManualUpdateMode)
        invariant forall f :: f !in done ==> (f in scheduled <==> f in old(scheduled))
        invariant events == old(events) + Announced(fs[..i])
      {
        var feed := fs[i];
        assert feed in fs && fs[..i + 1] == fs[..i] + [feed];
        AnnouncedAppend(fs[..i], feed);
        Adopt(feed, timestamp);
        done := done + {feed};
      }
      assert fs[..|fs|] == fs;
    }

    /** Add one provisional feed per accepted element of the document, in
        document order. A document that could not be opened (`None`) adds
        nothing. */
    method ImportOpml(doc: Option<seq<Element>>)
      modifies this`storeRequests
      ensures storeRequests == old(storeRequests) + (if doc.Some? then ImportedFeeds(doc.value) else [])
    {
      if doc.None? {
        return;
      }
      var elements := doc.value;
      for i := 0 to |elements|
        invariant storeRequests == old(storeRequests) + ImportedFeeds(elements[..i])
      {
        assert elements[..i + 1][..i] == elements[..i];
        var e := elements[i];
        if !e.isOutline {
          continue;
        }
        if e.xmlUrl.None? {
          continue;
        }
        if !e.urlValid {
          continue;
        }
        var name := "";
        if e.text.Some? {
          name := e.text.value;
        }
        var feed := new Feed(name, Url(e.xmlUrl.value, true));
        AddFeed(feed);
      }
      assert elements[..|elements|] == elements;
    }

    /** Write one outline element per feed, in some order of the set; a file
        that could not be opened (`writable` false) yields no document. */
    method ExportOpml(writable: bool) returns (doc: Option<seq<Element>>, ghost order: seq<Feed>)
      ensures doc.Some? <==> writable
      ensures doc.Some? ==> |doc.value| == |feeds|
      ensures doc.Some? ==> forall f :: f in feeds ==> ExportEntry(InfoOf(f)) in doc.value
      ensures doc.Some? ==> forall e :: e in doc.value ==> exists f :: f in feeds && e == ExportEntry(InfoOf(f))
      ensures writable ==> forall f :: f in order <==> f in feeds
      ensures forall i, j :: 0 <= i < j < |order| ==> order[i] != order[j]
      ensures doc == if writable then Some(ExportEntries(Infos(order))) else None
    {
      if !writable {
        return None, [];
      }
      var written: seq<Element> := [];
      order := [];
      var rest := feeds;
      while rest != {}
        invariant rest <= feeds
        invariant forall f :: f in order <==> f in feeds && f !in rest
        invariant forall i, j :: 0 <= i < j < |order| ==> order[i] != order[j]
        invariant written == ExportEntries(Infos(order))
      {
        var f :| f in rest;
        assert (order + [f])[..|order|] == order;
        ExportEntriesAppend(Infos(order), InfoOf(f));
        written := written + [ExportEntry(InfoOf(f))];
        order := order + [f];
        rest := rest - {f};
      }
      EnumerationSize(order, feeds);
      ExportCoversFeeds(order, feeds);
      doc := Some(written);
    }
  }

  /** A duplicate-free enumeration of a set is as long as the set is large. */
  lemma {:induction false} EnumerationSize<T>(order: seq<T>, s: set<T>)
    requires forall x :: x in order <==> x in s
    requires forall i, j :: 0 <= i < j < |order| ==> order[i] != order[j]
    ensures |order| == |s|
    decreases |order|
  {
    if order != [] {
      var last := order[|order| - 1];
      var init := order[..|order| - 1];
      forall x ensures x in init <==> x in s - {last} {
        if x in init {
          var i :| 0 <= i < |init| && init[i] == x;
          assert order[i] == x && order[|order| - 1] == last;
        }
        if x in s - {last} {
          var i :| 0 <= i < |order| && order[i] == x;
          assert i != |order| - 1;
          assert init[i] == x;
        }
      }
      EnumerationSize(init, s - {last});
    }
  }

  /** The records exported for an enumeration of a feed set are exactly
      the records of the set's feeds. */
  lemma ExportCoversFeeds(order: seq<Feed>, feeds: set<Feed>)
    requires forall f :: f in order <==> f in feeds
    ensures forall f :: f in feeds ==> ExportEntry(InfoOf(f)) in ExportEntries(Infos(order))
    ensures forall e :: e in ExportEntries(Infos(order)) ==> exists f :: f in feeds && e == ExportEntry(InfoOf(f))
  {
    var doc := ExportEntries(Infos(order));
    forall f | f in feeds
      ensures ExportEntry(InfoOf(f)) in doc
    {
      var i :| 0 <= i < |order| && order[i] == f;
      assert doc[i] == ExportEntry(InfoOf(f));
    }
    forall e | e in doc
      ensures exists f :: f in feeds && e == ExportEntry(InfoOf(f))
    {
      var i :| 0 <= i < |doc| && doc[i] == e;
      assert order[i] in feeds && e == ExportEntry(InfoOf(order[i]));
    }
  }

  /** Importing what ExportOpml wrote asks storage for every exported feed
      whose URL is valid, with its name and URL. */
  lemma ExportThenImport(fs: seq<Feed>, doc: seq<Element>)
    requires doc == ExportEntries(Infos(fs))
    ensures ImportedFeeds(doc) == WithValidUrl(Infos(fs))
  {
    ImportOfExport(Infos(fs));
  }
}
