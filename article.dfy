/** An article of a feed: a back-reference to its feed that never changes,
    and fields whose setters notify only on an actual change. */
module Articles {
  import opened Values
  import opened Updaters

  datatype ArticleSignal = TitleChanged | AuthorChanged | DateChanged | UrlChanged | ReadStatusChanged

  /** Everything an article stores besides its feed, as one value. */
  datatype ArticleState = ArticleState(title: string, author: string, date: Stamp, url: Url, isRead: bool)

  class Article {
    /** The owning feed, fixed at construction. */
    const feed: Feed
    var title: string
    var author: string
    var date: Stamp
    var url: Url
    var readStatus: bool
    /** Signals emitted, oldest first. */
    ghost var events: seq<ArticleSignal>

    function State(): ArticleState
      reads this
    {
      ArticleState(title, author, date, url, readStatus)
    }

    constructor (feed: Feed)
      ensures this.feed == feed
      ensures State() == ArticleState("", "", Invalid, EmptyUrl, false)
      ensures events == []
    {
      this.feed := feed;
      title := "";
      author := "";
      date := Invalid;
      url := EmptyUrl;
      readStatus := false;
      events := [];
    }

    method SetTitle(title: string)
      modifies this
      ensures var r := StoreIfChanged(old(this.title), title);
              State() == old(State()).(title := r.value)
              && events == old(events) + Emitted(r, TitleChanged)
    {
      if this.title != title {
        this.title := title;
        events := events + [TitleChanged];
      }
    }

    method SetAuthor(author: string)
      modifies this
      ensures var r := StoreIfChanged(old(this.author), author);
              State() == old(State()).(author := r.value)
              && events == old(events) + Emitted(r, AuthorChanged)
    {
      if this.author != author {
        this.author := author;
        events := events + [AuthorChanged];
      }
    }

    method SetDate(date: Stamp)
      modifies this
      ensures var r := StoreIfChanged(old(this.date), date);
              State() == old(State()).(date := r.value)
              && events == old(events) + Emitted(r, DateChanged)
    {
      if this.date != date {
        this.date := date;
        events := events + [DateChanged];
      }
    }

    method SetUrl(url: Url)
      modifies this
      ensures var r := StoreIfChanged(old(this.url), url);
              State() == old(State()).(url := r.value)
              && events == old(events) + Emitted(r, UrlChanged)
    {
      if this.url != url {
        this.url := url;
        events := events + [UrlChanged];
      }
    }

    method SetRead(isRead: bool)
      modifies this
      ensures var r := StoreIfChanged(old(readStatus), isRead);
              State() == old(State()).(isRead := r.value)
              && events == old(events) + Emitted(r, ReadStatusChanged)
    {
      if readStatus != isRead {
        readStatus := isRead;
        events := events + [ReadStatusChanged];
      }
    }
  }

  /** Setting the same title twice emits at most one signal. */
  method RepeatedSetTitle(a: Article, title: string)
    modifies a
    ensures a.State() == old(a.State()).(title := title)
    ensures a.events == old(a.events) + Emitted(StoreIfChanged(old(a.title), title), TitleChanged)
    ensures |a.events| <= |old(a.events)| + 1
  {
    a.SetTitle(title);
    a.SetTitle(title);
  }
}
