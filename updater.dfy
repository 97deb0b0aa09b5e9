/** The per-feed update state machine: a feed's status lives on the feed,
    its scheduling parameters and timestamps on the feed's updater.
    Feed and Updater point at each other, so they share this module. */
module Updaters {
  import opened Values

  /** The signals an updater emits, together with the calls it makes into
      the feed-kind specific fetch code (`run` and `abort`). */
  datatype UpdaterEvent =
    | RunCalled
    | AbortCalled
    | LastUpdateChanged
    | UpdateModeChanged
    | UpdateIntervalChanged

  /** Everything an updater stores besides its feed, as one value. */
  datatype UpdaterData = UpdaterData(
    updateMode: UpdateMode,
    updateInterval: int,
    expireAge: int,
    lastUpdate: Stamp,
    updateStartTime: Stamp,
    errorMsg: string)

  /** The state of a freshly constructed updater. */
  const InitialData := UpdaterData(DefaultUpdateMode, 0, 0, Invalid, Invalid, "")

  /** A subscribed feed: identity, display data, load status, and the
      updater it owns for its whole life. */
  class Feed {
    var name: string
    var url: Url
    var status: LoadStatus
    const updater: Updater

    /** The feed's updater points back at it. */
    ghost predicate Wired()
      reads updater`feed
    {
      updater.feed == this
    }

    constructor (name: string, url: Url)
      ensures this.name == name && this.url == url && status == Idle
      ensures Wired() && fresh(updater)
      ensures updater.d == InitialData && updater.events == []
    {
      this.name := name;
      this.url := url;
      status := Idle;
      updater := new Updater();
      new;
      updater.feed := this;
    }
  }

  class Updater {
    /** The feed this updater drives; set once by the owning feed's
        constructor, which cannot hand itself out before it exists. */
    var feed: Feed?
    /** The updater's private data block, updated field by field. */
    var d: UpdaterData
    /** Signals emitted and fetch-code calls made, oldest first. */
    ghost var events: seq<UpdaterEvent>

    constructor ()
      ensures feed == null
      ensures d == InitialData && events == []
    {
      feed := null;
      d := InitialData;
      events := [];
    }

    /** Begin an update at `timestamp`. The start time is recorded first;
        then, unless an update is already in flight, the feed switches to
        Updating and the fetch code runs. */
    method Start(timestamp: int)
      requires feed != null
      modifies this`d, this`events, feed`status
      ensures d == old(d).(updateStartTime := At(timestamp))
      ensures feed.status == Updating
      ensures events == old(events) + (if old(feed.status) != Updating then [RunCalled] else [])
    {
      d := d.(updateStartTime := At(timestamp));
      if feed.status != Updating {
        feed.status := Updating;
        events := events + [RunCalled];
      }
    }

    /** The earliest time of the next automatic update. */
    function NextUpdate(): (r: Stamp)
      reads this
      ensures r.Invalid? <==> d.updateStartTime.Invalid?
      ensures d.updateStartTime.At? ==> r.secs == d.updateStartTime.secs + d.updateInterval
    {
      d.updateStartTime.AddSecs(d.updateInterval)
    }

    /** Whether automatic updates are on at all. */
    predicate HasNextUpdate()
      reads this
    {
      d.updateMode != ManualUpdateMode && d.updateInterval > 0
    }

    /** Whether the feed is due at `timestamp`: automatic updates are on
        and one interval has passed since the last start, or the feed has
        never been started. */
    predicate NeedsUpdate(timestamp: int): (r: bool)
      reads this
      ensures r ==> HasNextUpdate()
      ensures HasNextUpdate() ==>
                (r <==> d.updateStartTime.Invalid? || d.updateStartTime.secs + d.updateInterval <= timestamp)
    {
      HasNextUpdate() && NextUpdate().AtOrBefore(At(timestamp))
    }

    /** Start an update if one is due; report whether it did. */
    method UpdateIfNecessary(timestamp: int) returns (started: bool)
      requires feed != null
      modifies this`d, this`events, feed`status
      ensures started == old(NeedsUpdate(timestamp))
      ensures started ==> d == old(d).(updateStartTime := At(timestamp))
                          && feed.status == Updating
                          && events == old(events) + (if old(feed.status) != Updating then [RunCalled] else [])
      ensures !started ==> d == old(d) && feed.status == old(feed.status) && events == old(events)
    {
      if NeedsUpdate(timestamp) {
        Start(timestamp);
        return true;
      }
      return false;
    }

    /** Record the time of the last completed update; a real change also
        moves the start time to the same value. */
    method SetLastUpdate(lastUpdate: Stamp)
      modifies this`d, this`events
      ensures var r := StoreIfChanged(old(d.lastUpdate), lastUpdate);
              d == old(d).(lastUpdate := r.value,
                           updateStartTime := if r.changed then lastUpdate else old(d.updateStartTime))
              && events == old(events) + Emitted(r, LastUpdateChanged)
    {
      if d.lastUpdate != lastUpdate {
        d := d.(lastUpdate := lastUpdate, updateStartTime := lastUpdate);
        events := events + [LastUpdateChanged];
      }
    }

    method SetUpdateMode(updateMode: UpdateMode)
      modifies this`d, this`events
      ensures var r := StoreIfChanged(old(d.updateMode), updateMode);
              d == old(d).(updateMode := r.value) && events == old(events) + Emitted(r, UpdateModeChanged)
    {
      if updateMode != d.updateMode {
        d := d.(updateMode := updateMode);
        events := events + [UpdateModeChanged];
      }
    }

    method SetUpdateInterval(updateInterval: int)
      modifies this`d, this`events
      ensures var r := StoreIfChanged(old(d.updateInterval), updateInterval);
              d == old(d).(updateInterval := r.value) && events == old(events) + Emitted(r, UpdateIntervalChanged)
    {
      if updateInterval != d.updateInterval {
        d := d.(updateInterval := updateInterval);
        events := events + [UpdateIntervalChanged];
      }
    }

    /** Adopt a new global default interval, but only while the feed
        follows the default. */
    method SetDefaultUpdateInterval(updateInterval: int)
      modifies this`d, this`events
      ensures old(d.updateMode) == DefaultUpdateMode ==>
                var r := StoreIfChanged(old(d.updateInterval), updateInterval);
                d == old(d).(updateInterval := r.value) && events == old(events) + Emitted(r, UpdateIntervalChanged)
      ensures old(d.updateMode) != DefaultUpdateMode ==> d == old(d) && events == old(events)
    {
      if d.updateMode == DefaultUpdateMode {
        SetUpdateInterval(updateInterval);
      }
    }

    /** Store the expiry age; this setter emits nothing. */
    method SetExpireAge(expireAge: int)
      modifies this`d
      ensures d == old(d).(expireAge := expireAge)
      ensures events == old(events)
    {
      d := d.(expireAge := expireAge);
    }

    /** Copy the interval, then the mode, of `other`. */
    method UpdateParams(other: Updater)
      modifies this`d, this`events
      ensures d == old(d).(updateInterval := old(other.d.updateInterval), updateMode := old(other.d.updateMode))
      ensures events == old(events)
                        + Emitted(StoreIfChanged(old(d.updateInterval), old(other.d.updateInterval)), UpdateIntervalChanged)
                        + Emitted(StoreIfChanged(old(d.updateMode), old(other.d.updateMode)), UpdateModeChanged)
    {
      SetUpdateInterval(other.d.updateInterval);
      SetUpdateMode(other.d.updateMode);
    }

    /** The fetch succeeded: the start time becomes the last-update time
        and the feed goes back to Idle. */
    method Finish()
      requires feed != null
      modifies this`d, this`events, feed`status
      ensures d == old(d).(lastUpdate := old(d.updateStartTime))
      ensures feed.status == Idle
      ensures events == old(events) + Emitted(StoreIfChanged(old(d.lastUpdate), old(d.updateStartTime)), LastUpdateChanged)
    {
      SetLastUpdate(d.updateStartTime);
      feed.status := Idle;
    }

    /** The fetch failed: keep the message and mark the feed as errored. */
    method SetError(errorMsg: string)
      requires feed != null
      modifies this`d, this`events, feed`status
      ensures d == old(d).(errorMsg := errorMsg)
      ensures feed.status == Error
      ensures events == old(events)
    {
      d := d.(errorMsg := errorMsg);
      feed.status := Error;
    }

    /** Ask the fetch code to cancel; the default implementation does
        nothing else. */
    method Abort()
      modifies this`events
      ensures d == old(d)
      ensures events == old(events) + [AbortCalled]
    {
      events := events + [AbortCalled];
    }
  }

  /** A feed in Manual mode, or with no positive interval, is never due. */
  lemma ManualNeverNeedsUpdate(u: Updater, timestamp: int)
    requires u.d.updateMode == ManualUpdateMode || u.d.updateInterval <= 0
    ensures !u.NeedsUpdate(timestamp)
  {}

  /** Once due, a feed stays due as time goes on. */
  lemma NeedsUpdateMonotone(u: Updater, t: int, t': int)
    requires u.NeedsUpdate(t) && t <= t'
    ensures u.NeedsUpdate(t')
  {
    AtOrBeforeTransitive(u.NextUpdate(), At(t), At(t'));
  }

  /** With an hourly interval a feed is not due one second early and is due
      on the hour. */
  lemma HourlyFeedDueOnTheHour(u: Updater, t0: int)
    requires u.d.updateMode != ManualUpdateMode && u.d.updateInterval == 3600
    requires u.d.updateStartTime == At(t0)
    ensures !u.NeedsUpdate(t0 + 3599) && u.NeedsUpdate(t0 + 3600)
  {}

  /** A second start while the first is in flight runs nothing, yet moves
      the start time, so the later call's time is what a following finish
      records as the last update. */
  method ReentrantStart(u: Updater, first: int, second: int)
    requires u.feed != null && u.feed.status != Updating
    modifies u`d, u`events, u.feed`status
    ensures u.events == old(u.events) + [RunCalled]
                        + Emitted(StoreIfChanged(old(u.d.lastUpdate), At(second)), LastUpdateChanged)
    ensures u.feed.status == Idle
    ensures u.d.lastUpdate == At(second) && u.d.updateStartTime == At(second)
  {
    u.Start(first);
    u.Start(second);
    u.Finish();
  }

  /** Setting the same interval twice emits at most one signal: the second
      call finds the value already stored. */
  method RepeatedSetUpdateInterval(u: Updater, updateInterval: int)
    modifies u`d, u`events
    ensures u.d == old(u.d).(updateInterval := updateInterval)
    ensures u.events == old(u.events) + Emitted(StoreIfChanged(old(u.d.updateInterval), updateInterval), UpdateIntervalChanged)
    ensures |u.events| <= |old(u.events)| + 1
  {
    u.SetUpdateInterval(updateInterval);
    u.SetUpdateInterval(updateInterval);
  }
}
