/** Values shared by the feed core: timestamps, URLs, load status, update
    modes, and the "store and notify only on an actual change" rule that
    every property setter of the core follows. */
module Values {

  datatype Option<+T> = None | Some(value: T) {
    function GetOr(default: T): T {
      match this
      case Some(v) => v
      case None => default
    }
  }

  /** A point in time in whole seconds. `Invalid` is the default-constructed,
      null date-time, which orders before every valid one. */
  datatype Stamp = Invalid | At(secs: int) {

    /** Shift by `n` seconds; an invalid stamp stays invalid. */
    function AddSecs(n: int): (r: Stamp)
      ensures r.Invalid? <==> Invalid?
      ensures At? ==> r.secs - secs == n
    {
      match this
      case Invalid => Invalid
      case At(s) => At(s + n)
    }

    /** `this <= other`, with the invalid stamp below every valid one and
        equal to itself. */
    predicate AtOrBefore(other: Stamp): (r: bool)
      ensures Invalid? ==> r
      ensures At? ==> (r <==> other.At? && secs <= other.secs)
    {
      match (this, other)
      case (Invalid, _) => true
      case (At(_), Invalid) => false
      case (At(a), At(b)) => a <= b
    }
  }

  lemma AtOrBeforeTransitive(a: Stamp, b: Stamp, c: Stamp)
    requires a.AtOrBefore(b) && b.AtOrBefore(c)
    ensures a.AtOrBefore(c)
  {}

  /** A parsed URL: its textual form and whether the URL parser accepted it. */
  datatype Url = Url(spelling: string, valid: bool)

  /** The empty, invalid URL a default-constructed URL object holds. */
  const EmptyUrl := Url("", false)

  /** Load status of a feed; a new feed is idle. */
  datatype LoadStatus = Idle | Loading | Updating | Error

  datatype UpdateMode = DefaultUpdateMode | CustomUpdateMode | ManualUpdateMode

  /** What a property setter does when asked to store `next` over `current`:
      the property always ends up holding `next`, and a change signal goes
      out exactly when the value really differed. */
  datatype Store<T> = Store(value: T, changed: bool)

  function StoreIfChanged<T(==)>(current: T, next: T): (r: Store<T>)
    ensures r.value == next
    ensures r.changed <==> current != next
  {
    if current != next then Store(next, true) else Store(current, false)
  }

  /** The signals a store emits: `sig` once if the value changed, else none. */
  function Emitted<T, S>(r: Store<T>, sig: S): (s: seq<S>)
    ensures |s| <= 1
    ensures s == [sig] <==> r.changed
    ensures !r.changed ==> s == []
  {
    if r.changed then [sig] else []
  }

  /** Repeating a setter call is harmless: the second call stores the same
      value and emits nothing, so two calls emit at most one signal. */
  lemma StoreTwiceSignalsOnce<T, S>(current: T, next: T, sig: S)
    ensures var first := StoreIfChanged(current, next);
            var second := StoreIfChanged(first.value, next);
            second.value == first.value && !second.changed
            && |Emitted(first, sig) + Emitted(second, sig)| <= 1
  {}
}
