/**
 * Calendar dates, already parsed. Where a date column is parsed with coercion,
 * a value that fails to parse is represented by the caller as `None`.
 */
module Calendar {

  /** A calendar month, 1-based (January is 1). */
  type Month = m: int | 1 <= m <= 12 witness 1

  datatype Date = Date(year: int, month: Month, day: int)

  /** Chronological order: by year, then month, then day. */
  predicate DateLess(a: Date, b: Date)
  {
    || a.year < b.year
    || (a.year == b.year && a.month < b.month)
    || (a.year == b.year && a.month == b.month && a.day < b.day)
  }

  /** Distinct dates are always ordered one way or the other, and the order is transitive. */
  lemma DateLessIsStrictTotal(a: Date, b: Date, c: Date)
    ensures !DateLess(a, a)
    ensures DateLess(a, b) && DateLess(b, c) ==> DateLess(a, c)
    ensures a != b ==> DateLess(a, b) || DateLess(b, a)
  {
  }
}
