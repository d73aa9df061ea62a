/** Day-granularity dates. A JavaScript `Date` is a millisecond timestamp;
    every comparison the core makes is between timestamps that were first
    normalised to midnight, so the model works on whole day numbers and this
    module shows why that is the same comparison. */
module Dates {

  import opened Options

  const MS_PER_DAY: int := 86_400_000

  /** The day a timestamp falls on (days since the epoch, in the one
      reference time zone of the model). */
  function DayOf(t: int): int {
    t / MS_PER_DAY
  }

  /** `normalizeDateToMidnight(d).getTime()`: the timestamp of midnight
      at the start of the same day. */
  function NormalizeToMidnight(t: int): (r: int)
    ensures r % MS_PER_DAY == 0
    ensures r <= t < r + MS_PER_DAY
    ensures r == DayOf(t) * MS_PER_DAY
  {
    t - t % MS_PER_DAY
  }

  /** Normalising an already normalised timestamp returns it unchanged. */
  lemma NormalizeIdempotent(t: int)
    ensures NormalizeToMidnight(NormalizeToMidnight(t)) == NormalizeToMidnight(t)
  {
  }

  /** Two timestamps normalise to the same value exactly when they are on
      the same day, and normalised timestamps are ordered as their days are:
      comparing `getTime()` of normalised dates is comparing day numbers. */
  lemma NormalizedOrder(a: int, b: int)
    ensures NormalizeToMidnight(a) == NormalizeToMidnight(b) <==> DayOf(a) == DayOf(b)
    ensures NormalizeToMidnight(a) <= NormalizeToMidnight(b) <==> DayOf(a) <= DayOf(b)
  {
    var da, db := DayOf(a), DayOf(b);
    if da < db {
      assert da * MS_PER_DAY + MS_PER_DAY <= db * MS_PER_DAY;
    } else if db < da {
      assert db * MS_PER_DAY + MS_PER_DAY <= da * MS_PER_DAY;
    }
  }

  /** A `Date` object as the form holds it: a day, or an Invalid Date
      (what `parseISO` gives for a malformed string). */
  datatype DateValue = Day(day: int) | InvalidDate

  /** date-fns `isValid`. */
  predicate IsValid(d: DateValue) {
    d.Day?
  }

  /** date-fns `addDays`: an Invalid Date stays invalid. */
  function AddDays(d: DateValue, n: int): (r: DateValue)
    ensures r.Day? <==> d.Day?
    ensures r.Day? ==> r.day - d.day == n
  {
    match d
    case Day(x) => Day(x + n)
    case InvalidDate => InvalidDate
  }

  /** date-fns `isBefore(a, b)`: false when either date is invalid, because
      every comparison with NaN is false. */
  predicate IsBefore(a: DateValue, b: DateValue) {
    a.Day? && b.Day? && a.day < b.day
  }

  /** A date column as the store returns it: a well-formed 'YYYY-MM-DD'
      string, the empty string, or any other text. */
  datatype DateText = Iso(day: int) | Blank | Unparseable

  /** `new Date(text + "T00:00:00Z")`, normalised: a day for a well-formed
      string and NaN (`None`) otherwise. */
  function StoredDay(t: DateText): (r: Option<int>)
    ensures r.Some? <==> t.Iso?
    ensures t.Iso? ==> r.value == t.day
  {
    if t.Iso? then Some(t.day) else None
  }

  /** date-fns `parseISO` of a date column. */
  function ParseIso(t: DateText): (r: DateValue)
    ensures r.Day? <==> t.Iso?
    ensures t.Iso? ==> r.day == t.day
  {
    if t.Iso? then Day(t.day) else InvalidDate
  }

  /** `format(Day(d), 'yyyy-MM-dd')` read back as a date column. */
  function FormatIso(d: int): (t: DateText)
    ensures ParseIso(t) == Day(d) && StoredDay(t) == Some(d)
  {
    Iso(d)
  }

}
