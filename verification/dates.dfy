/**
 Calendar dates as abstract ordered values. The scripts build JavaScript `Date`
 objects at local midnight; the model keeps only the (year, month, day) triple
 and the lexicographic order the comparisons amount to.
 */
module Dates {
  import opened Options

  datatype Date = Date(year: int, month: int, day: int)

  /** Strictly earlier, comparing year, then month, then day. */
  predicate Before(a: Date, b: Date) {
    || a.year < b.year
    || (a.year == b.year && a.month < b.month)
    || (a.year == b.year && a.month == b.month && a.day < b.day)
  }

  /** The same calendar day n years earlier: `setFullYear(getFullYear() - n)`. */
  function YearsEarlier(d: Date, n: nat): (r: Date)
    ensures n > 0 ==> Before(r, d)
    ensures r.year == d.year - n && r.month == d.month && r.day == d.day
  {
    d.(year := d.year - n)
  }

  /** The earliest accepted date of birth. */
  function Oldest(today: Date): Date { YearsEarlier(today, 120) }

  /** A date of birth no later than today and no earlier than 120 years back. */
  predicate InWindow(d: Date, today: Date) {
    (d == Oldest(today) || Before(Oldest(today), d)) && (d == today || Before(d, today))
  }

  /** `Before` is a strict total order. */
  lemma BeforeOrder(a: Date, b: Date, c: Date)
    ensures !Before(a, a)
    ensures Before(a, b) && Before(b, c) ==> Before(a, c)
    ensures a == b || Before(a, b) || Before(b, a)
  {
  }

  /** Inside the window exactly when neither after today nor before the oldest day. */
  lemma InWindowOrder(d: Date, today: Date)
    ensures InWindow(d, today) <==> !Before(today, d) && !Before(d, Oldest(today))
  {
    BeforeOrder(d, today, Oldest(today));
    BeforeOrder(Oldest(today), d, today);
  }

  /** The window is never empty: today itself and the oldest day both lie in it. */
  lemma WindowBounds(today: Date)
    ensures InWindow(today, today)
    ensures InWindow(Oldest(today), today)
  {
  }

  /** What the scripts are given from outside: the current date (already taken
      to midnight) and the conversion of the date field's text to a date, which
      fails for text the JavaScript `Date` constructor cannot read. */
  datatype Env = Env(today: Date, parseDob: string -> Option<Date>)
}
