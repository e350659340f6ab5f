/** Small shared vocabulary: optional values, the identifier types the
    document store hands out, and two facts about concatenation. */
module Common {

  /** A value that may be absent (JavaScript `undefined`/`null`, or a lookup
      that found nothing). */
  datatype Option<+T> = None | Some(value: T)

  /** Document identifiers, compared as their string form (`id.toString()`). */
  type UserId = string
  type CandidateId = string
  type ElectionId = string

  /** A point in time in milliseconds, as `Date.now()` gives it. */
  type Instant = int

  /** A calendar date in local time: full year, month, day of month. */
  datatype CalendarDate = CalendarDate(year: int, month: int, day: int)

  /** JavaScript truthiness of an optional string: present and not empty. */
  predicate Truthy(s: Option<string>) {
    s.Some? && s.value != ""
  }

  /** Proof helper: concatenation regrouped. The parts are plain names, so a proof that
      calls this need not unfold the functions whose results they are. */
  lemma Regroup<T>(whole: seq<T>, left: seq<T>, h: seq<T>, mid: seq<T>, right: seq<T>)
    requires whole == h + (mid + right) && left == h + mid
    ensures whole == left + right
  {
    assert h + (mid + right) == (h + mid) + right;
  }

  /** Proof helper: the same with a separator between the middle and the
      right part. */
  lemma RegroupSeparated<T>(whole: seq<T>, left: seq<T>, h: seq<T>, mid: seq<T>, sep: seq<T>, right: seq<T>)
    requires whole == h + ((mid + sep) + right) && left == h + mid
    ensures whole == (left + sep) + right
  {
    assert h + ((mid + sep) + right) == ((h + mid) + sep) + right;
  }
}
