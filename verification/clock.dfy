/** The clock a request reads. JavaScript `new Date()` yields both an instant (stored in
    the timestamp fields) and a local calendar month and year (used by the read
    filters); the conversion between the two is not modelled, so both are given. */
module Clock {

  /** Milliseconds since the epoch, as Date.now() returns. */
  type Time = int

  /** Date#getMonth: January is 0, December is 11. */
  type Month = m: int | 0 <= m < 12

  /** The calendar month and full year of a date (getMonth, getFullYear). */
  datatype YearMonth = YearMonth(year: int, month: Month)

  /** One request's reading of the clock. */
  datatype Now = Now(instant: Time, period: YearMonth)
}
