# Feed core of syndic: update state machine, context and article setters

This project models, in Dafny, the core of the syndic feed reader's
`feedcore` library:

- **Updater**. Each feed owns one updater. The updater holds the feed's
  update mode (Default, Custom, Manual), its update interval, its expiry
  age, the start time of the last update, the time of the last completed
  update and the last error. It decides whether the feed is due for an
  update. It guards against starting a second fetch while one is in
  flight, and it records success (`finish`) and failure (`setError`).
- **Context**. This is the aggregate root. It holds the set of subscribed
  feeds and the process-wide default update interval and expiry age. It
  fans settings and commands out to every feed: configure updates,
  request an update, abort, a new default interval, a new expiry age. It
  takes in the feeds storage returns. It also holds the entry rules of the
  outline (OPML) feed-list import and export.
- **Article**. Property setters that store a value and notify only when
  the value actually changed.

The project uses five modules, one per file:

| file | module | contents |
|---|---|---|
| `values.dfy` | `Values` | timestamps (`Stamp`), URLs, load status, update modes, and the "store, and signal only on a change" rule shared by every setter |
| `updater.dfy` | `Updaters` | the classes `Feed` and `Updater`, which refer to each other |
| `article.dfy` | `Articles` | class `Article` |
| `opml.dfy` | `Opml` | the pure import and export entry rules over abstract outline elements |
| `context.dfy` | `Contexts` | class `Context` |

How the system's parts are represented:

- **Signals are logs.** A Qt signal emitted by an object becomes an entry
  appended to that object's ghost `events` log. The same goes for the
  updater's own virtual operations that each feed kind implements: `run`,
  which the updater calls from `start`, and `abort`, which the context
  calls (feedcore/context.cpp:110).
  So "emits X exactly when the value changed" is stated exactly.
- **Timestamps.** A `QDateTime` is `Stamp = Invalid | At(secs)`, in whole
  seconds. The default-constructed, invalid date-time orders before every
  valid one. A never-started updater, whose start time is invalid, is
  therefore due at the first check once automatic updates are on (mode
  not Manual, interval greater than 0).
- **Updater data.** The updater keeps its data in one private block,
  `PrivData d` in feedcore/updater.cpp:14-23. The model keeps it as the
  field `d` of the datatype `UpdaterData`, which every setter updates
  field by field.
- **Feed and updater.** A `Feed` refers to its `Updater` through a
  constant, because the `updater` property is declared CONSTANT in
  feedcore/feed.h:29. The updater points back at its feed. The context's
  invariant `Valid()` says this back-reference holds for every held feed, so
  no two feeds share an updater.
- **Scheduler and storage.** These collaborators are not shown, so they
  are abstract. The scheduler is the context's set `scheduled` of feeds it
  watches. A request to storage is an entry of the log `storeRequests`. A
  storage answer is the sequence handed to `PopulateFeeds`.
- **OPML documents.** A document is the sequence of elements the XML reader
  reports. Each element is reduced to four things: whether it is an
  `outline` start element, its `xmlUrl` attribute if present, whether the
  URL parser accepts that attribute, and its `text` attribute if present. A
  file that cannot be opened is `None`.

Two points where the code does not do what one might expect; the model
follows the code:

- **`start`.** A repeated `start` while an update is in flight might be
  expected to be a no-op. The code writes the new start time *before*
  checking the status (feedcore/updater.cpp:36-37). So a repeated `start`
  runs nothing, yet moves the start time. `Updaters.ReentrantStart` shows
  the consequence: after two starts and a finish, the later start's time
  is recorded as the last update.
- **The `active` flag.** The updater's private data declares an `active`
  flag (feedcore/updater.cpp:22), which suggests an "update in flight"
  state, but the code never reads or writes it, so the model has no such
  field; the in-flight guard is the feed's Updating status.

## Model

| member | source | states |
|---|---|---|
| Values.Stamp.AddSecs | feedcore/updater.cpp:53-56 | adding seconds to an invalid stamp gives an invalid stamp; on a valid stamp it shifts by exactly that many seconds |
| Values.Stamp.AtOrBefore | feedcore/updater.cpp:66 | the `<=` on date-times: the invalid date-time is at or before every stamp, and a valid one is at or before exactly the valid stamps with at least as many seconds |
| Values.AtOrBeforeTransitive | feedcore/updater.cpp:64-67 | the `<=` order on date-times, with invalid lowest, is transitive |
| Values.StoreIfChanged | feedcore/updater.cpp:114-120 | a setter always leaves the new value stored, and reports a change exactly when old and new value differ |
| Values.Emitted | feedcore/article.cpp:11-17 | a setter emits its signal once when the value changed and not at all otherwise |
| Values.StoreTwiceSignalsOnce | feedcore/article.cpp:11-54 | repeating a setter call with the same value stores nothing new and emits nothing, so two calls emit at most one signal |
| Updaters.Feed.constructor | feedcore/feed.h:29-47 | a new feed is Idle, owns a fresh updater that points back at it, and that updater starts in Default mode with interval 0, expiry age 0, invalid timestamps and no signals |
| Updaters.Updater.constructor | feedcore/updater.cpp:14-30 | the private data starts in Default mode with interval 0, expiry age 0, invalid last-update and start times and an empty error |
| Updaters.Updater.Start | feedcore/updater.cpp:34-41 | the start time becomes the given timestamp on every call; the feed ends Updating; `run` is called exactly when the feed was not already Updating; nothing else in the data changes |
| Updaters.Updater.NextUpdate | feedcore/updater.cpp:53-56 | the next update is invalid exactly when the start time is, and otherwise lies one interval after the start time |
| Updaters.Updater.NeedsUpdate | feedcore/updater.cpp:53-67 | a due feed has automatic updates on (mode not Manual, interval greater than 0); with them on, it is due at `t` exactly when it was never started or `start + interval <= t` |
| Updaters.ManualNeverNeedsUpdate | feedcore/updater.cpp:58-67 | in Manual mode, or with an interval of 0 or less, the feed is due at no time |
| Updaters.NeedsUpdateMonotone | feedcore/updater.cpp:53-67 | a feed due at `t` is due at every later time |
| Updaters.HourlyFeedDueOnTheHour | feedcore/updater.cpp:53-67 | with an hourly interval a feed is not due one second before the hour and is due on the hour |
| Updaters.Updater.UpdateIfNecessary | feedcore/updater.cpp:69-76 | returns true exactly when the feed was due beforehand, and then has done what `start` does; otherwise data, status and signals are unchanged |
| Updaters.Updater.SetLastUpdate | feedcore/updater.cpp:88-94 | on a different value both the last-update and the start time take it and `lastUpdateChanged` is emitted once; on the same value nothing changes |
| Updaters.Updater.SetUpdateMode | feedcore/updater.cpp:101-107 | the mode is stored; `updateModeChanged` is emitted exactly when it differed; no other field changes |
| Updaters.Updater.SetUpdateInterval | feedcore/updater.cpp:114-120 | the interval is stored; `updateIntervalChanged` is emitted exactly when it differed; no other field changes |
| Updaters.Updater.SetDefaultUpdateInterval | feedcore/updater.cpp:122-127 | in Default mode it acts as the interval setter; in Custom or Manual mode nothing changes and nothing is emitted |
| Updaters.Updater.SetExpireAge | feedcore/updater.cpp:129-132 | the expiry age is stored unconditionally, nothing else changes and no signal is emitted |
| Updaters.Updater.UpdateParams | feedcore/updater.cpp:139-143 | afterwards interval and mode equal the other updater's; the interval signal and then the mode signal are emitted, each exactly when its value changed; this is the updater on its own, before a context holding the feed reacts to the mode signal |
| Updaters.Updater.Finish | feedcore/updater.cpp:145-149 | the last update becomes the pre-call start time, the feed ends Idle, and `lastUpdateChanged` is emitted exactly when the last update changed |
| Updaters.Updater.SetError | feedcore/updater.cpp:151-155 | the message is stored and the feed ends in Error; last update, start time, mode and interval are unchanged and nothing is emitted |
| Updaters.Updater.Abort | feedcore/context.cpp:106-112 | the fetch code's `abort` is called once and the updater's data is unchanged |
| Updaters.ReentrantStart | feedcore/updater.cpp:34-41 | a second start while Updating does not call `run` again, yet its time is what a following finish records as the last update |
| Updaters.RepeatedSetUpdateInterval | feedcore/updater.cpp:114-120 | setting the same interval twice stores it and emits at most one signal |
| Articles.Article.constructor | feedcore/article.cpp:5-9 | the article keeps the given feed; title and author are empty, date invalid, URL empty, not read; no signals |
| Articles.Article.SetTitle | feedcore/article.cpp:11-17 | the title is stored; `titleChanged` is emitted exactly when it differed; all other fields are unchanged |
| Articles.Article.SetAuthor | feedcore/article.cpp:19-25 | the author is stored; `authorChanged` is emitted exactly when it differed; all other fields are unchanged |
| Articles.Article.SetDate | feedcore/article.cpp:27-33 | the date is stored; `dateChanged` is emitted exactly when it differed; all other fields are unchanged |
| Articles.Article.SetUrl | feedcore/article.cpp:35-41 | the URL is stored; `urlChanged` is emitted exactly when it differed; all other fields are unchanged |
| Articles.Article.SetRead | feedcore/article.cpp:48-54 | the read flag is stored; `readStatusChanged` is emitted exactly when it flipped; all other fields are unchanged |
| Articles.RepeatedSetTitle | feedcore/article.cpp:11-17 | setting the same title twice stores it and emits at most one signal |
| Opml.Accept | feedcore/context.cpp:198-211 | an element yields a feed exactly when it is an outline with an `xmlUrl` the URL parser accepts; the feed's URL is that attribute, and its name is the `text` attribute when present |
| Opml.ImportedFeeds | feedcore/context.cpp:196-214 | an import adds no more feeds than the document has elements, each with a valid URL |
| Opml.ImportedFeedsAppend | feedcore/context.cpp:196-214 | import goes element by element: a document in two parts imports as its parts do, in order |
| Opml.ImportedFeedsMembers | feedcore/context.cpp:196-214 | a feed is imported exactly when some element of the document yields it |
| Opml.ImportSkipsEntryWithoutUrl | feedcore/context.cpp:200-202 | an outline without `xmlUrl` is skipped while its valid neighbour is imported |
| Opml.ExportEntry | feedcore/context.cpp:177-182 | each exported record is an outline whose `text` is the feed's name and whose `xmlUrl` is its URL |
| Opml.ExportEntries | feedcore/context.cpp:177-182 | export writes exactly one record per feed, in order |
| Opml.ExportEntriesAppend | feedcore/context.cpp:177-182 | exporting one feed more appends one record more |
| Opml.WithValidUrl | feedcore/context.cpp:203-206 | the reference side of the round trip: the feeds kept are exactly those of the list whose URL is valid, never more than the list has |
| Opml.ImportOfExport | feedcore/context.cpp:177-212 | importing exported records asks for exactly the exported feeds whose URL is valid, with the same names and URLs, in order |
| Contexts.Infos | feedcore/context.cpp:180-181 | what export and storage see of a list of feeds: one name-and-URL record per feed, position by position |
| Contexts.Configured | feedcore/context.cpp:58-63 | configuring keeps the mode; a Default-mode feed takes the default interval; any other feed is unchanged; only the interval can change |
| Contexts.IntervalSignals | feedcore/context.cpp:60-63 | configuring emits `updateIntervalChanged` exactly when a Default-mode feed's interval differed from the default, and emits nothing exactly when the state is already configured |
| Contexts.ConfiguredIdempotent | feedcore/context.cpp:58-69 | configuring twice with the same default changes and emits nothing the second time |
| Contexts.Adopted | feedcore/context.cpp:221-224 | a feed taken in from storage has the context's expiry age, keeps its mode, takes the default interval only in Default mode, and keeps everything else |
| Contexts.AdoptedIdempotent | feedcore/context.cpp:221-224 | a feed delivered twice is adopted the second time without change and without an interval signal |
| Contexts.Context.constructor | feedcore/context.cpp:20-31 | a new context holds no feeds, schedules nothing, has default interval and expiry age 0, and has made no `storeFeed` requests |
| Contexts.Context.ConfigureUpdates | feedcore/context.cpp:58-69 | the updater ends configured with the context's default interval and emits the matching signal; a Manual-mode feed leaves the scheduler; any other feed is in it |
| Contexts.Context.AddFeed | feedcore/context.cpp:76-82 | the feed is handed to storage once; the feed set is not changed |
| Contexts.Context.RequestUpdate | feedcore/context.cpp:97-104 | every held feed has done what `start` does with one shared timestamp: start time set, status Updating, `run` called exactly for the feeds not already Updating |
| Contexts.Context.AbortUpdates | feedcore/context.cpp:106-112 | every held feed's `abort` is called exactly once; updater data and the feed set are unchanged |
| Contexts.Context.SetDefaultUpdateInterval | feedcore/context.cpp:119-131 | for the current value nothing changes and nothing is emitted; otherwise every Default-mode feed takes the new interval, every other feed keeps its own, and the context's signal is emitted exactly once |
| Contexts.Context.SetExpireAge | feedcore/context.cpp:138-148 | for the current value nothing changes and nothing is emitted; otherwise every held feed has the new expiry age, nothing else changes, and the context's signal is emitted exactly once |
| Contexts.Context.Adopt | feedcore/context.cpp:222-228 | one feed joins the set, takes the context's expiry age, is configured for updates with its signals, and `feedAdded` is emitted for it |
| Contexts.Announced | feedcore/context.cpp:228 | the `feedAdded` signals for a sequence of feeds: one per feed, position by position |
| Contexts.AnnouncedAppend | feedcore/context.cpp:228 | announcing one more feed appends exactly its one `feedAdded` signal |
| Contexts.Context.PopulateFeeds | feedcore/context.cpp:218-230 | every delivered feed ends up held, adopted (context's expiry age, Default mode takes the default interval, nothing else changed) and scheduled exactly when not Manual; no held feed is removed; other feeds' scheduling is untouched; one `feedAdded` is emitted per element, in order, duplicates included |
| Contexts.Context.ImportOpml | feedcore/context.cpp:188-216 | storage is asked once per accepted element, in document order, for a feed with that element's name and URL; a file that cannot be opened asks for nothing |
| Contexts.Context.ExportOpml | feedcore/context.cpp:164-186 | a writable file receives a document and an unwritable one none; the document has one record per held feed, holds every held feed's record, and holds no record that is not a held feed's; it is the records of some duplicate-free enumeration of the set, in that order |
| Contexts.EnumerationSize | feedcore/context.cpp:177-182 | a loop visiting every feed of the set once writes exactly as many records as the set has feeds |
| Contexts.ExportCoversFeeds | feedcore/context.cpp:177-182 | the records written for an enumeration of the feed set are exactly the set's feeds' records |
| Contexts.ExportThenImport | feedcore/context.cpp:164-216 | importing what the export wrote asks storage for every exported feed with a valid URL, with its name and URL |

## Left out

- File access and XML: opening files, `urlToPath` with its Android `content:` case, and the XML tokenisers are I/O. The model starts from the element sequence the reader reports, and from whether the file opened. The debug message `importOpml` logs when the file cannot be opened (feedcore/context.cpp:192) is diagnostic output and is left out.
- XML attributes not used by import: the `opml` header, `version` and the `type="rss"` attribute the export writes carry no model state.
- URL parsing: whether a URL is valid is an input to the model (`urlValid`, `Url.valid`). Export and the round-trip lemmas assume that re-parsing the text `url().toString()` writes gives back the same URL, valid exactly when the feed's URL was; the model does not derive this from a URL parser. Two more assumptions sit in the import rule: the URL parsed from the `xmlUrl` attribute keeps the attribute text exactly, although the URL parser may normalise it; and a provisional feed whose outline has no `text` attribute is named "", the default name assumed for `ProvisionalFeed`, whose declaration is not part of this model.
- Network wiring: the network configuration manager's connections to the scheduler (feedcore/context.cpp:37-38) are left out, since they lead into an unseen scheduler.
- The context constructor's loading: the asynchronous `getFeeds` request, the scheduler start, and the storage future callbacks are left out. Their result is modelled as a call of `PopulateFeeds`.
- `getFeeds`, `getArticles` and `getStarred` are left out: they are plain queries or pass-throughs to storage.
- The scheduler's timer and due-time bookkeeping: only set membership is modelled. `ConfigureUpdates` takes the scheduler's reference timestamp as a parameter but does not use it.
- The connection `populateFeeds` makes to each feed's `updateModeChanged` signal (feedcore/context.cpp:225-227) is left out. It runs synchronously inside the emit, so for a held feed a mode change by `setUpdateMode` or `updateParams` is immediately followed by `configureUpdates`. `Updaters.Updater.UpdateParams` and `Updaters.Updater.SetUpdateMode` state the updater on its own, before the context reacts: a held Custom feed with interval 100 that copies a Default updater with interval 50, under a context default of 3600, ends with 3600, not 50. A further call of `ConfigureUpdates` models what the context then does.
- `run` and `abort` of each feed kind are virtual calls into unseen code, recorded only as `RunCalled` and `AbortCalled` log entries.
- Feed status notification: `Start`, `Finish` and `SetError` assign the feed's `status` field directly. The source calls `Feed::setStatus` (feedcore/feed.h:21), declared beside a `statusChanged` signal (feedcore/feed.h:34); its body is not part of this model, so whatever notification it sends is not logged.
- The clock: `QDateTime::currentDateTime()` is a `timestamp` parameter.
- `QDateTime` time zones and sub-second precision are not modelled, nor the 64-bit range of `qint64` and `time_t`: intervals, ages and seconds are unbounded integers.
- The ordering of an invalid date-time before every valid one is taken as given for Qt's comparison operators.
- The feed set's iteration order is not known. Loops over it are modelled as picking any remaining feed, and `ExportOpml` states its order only as some enumeration of the set.
- Indirect calls: the code calls `setExpireAge`, `updateMode` and `setUpdateInterval` on the feed object. These are modelled as calls on the feed's updater, which is where that data lives.
- Updater back-reference: the updater's `feed` reference is a `var` set once by the Feed constructor, because a Dafny object cannot pass itself out before it is fully constructed.
- Accessors that only return a field are read directly as fields, not modelled as members: `Updater::error`, `feed`, `updateStartTime`, `lastUpdate`, `updateMode`, `updateInterval` and `expireAge`, and `Article::feed`. `Updater::hasNextUpdate` is likewise a plain definition (`HasNextUpdate`, mode not Manual and interval greater than 0) without a contract of its own; what it means for scheduling is stated by `Updaters.ManualNeverNeedsUpdate` and by the contract of `Updaters.Updater.NeedsUpdate`.
- The article's `m_content` field has no setter in feedcore/article.cpp and is not modelled.
- Contexts.Context.PopulateFeeds: does not state the updater signal logs of the delivered feeds; `Adopt` and `ConfigureUpdates` state them for one feed. Stating them across the whole loop makes the proof too costly to check.
