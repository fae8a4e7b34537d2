/**
 * The records the services read from the store, as immutable values.
 * The foreign keys (the owning client) are omitted; the other stored
 * fields are kept, although not every service reads them.
 */
module Entities {
  import opened Wrappers

  /**
   * A local calendar date-time: `month` counts from 0 as `Date.getMonth`
   * does, `time` is milliseconds since local midnight.
   */
  datatype Date = Date(year: int, month: int, day: int, time: int)

  /** A date whose fields are in their calendar ranges. */
  predicate ValidDate(d: Date) {
    0 <= d.month < 12 && 1 <= d.day <= 31 && 0 <= d.time < 86_400_000
  }

  /** `a <= b` on timestamps: lexicographic on (year, month, day, time). */
  predicate DateLeq(a: Date, b: Date) {
    a.year < b.year || (a.year == b.year &&
      (a.month < b.month || (a.month == b.month &&
        (a.day < b.day || (a.day == b.day && a.time <= b.time)))))
  }

  /** `new Date(year, month, 1)`: midnight at the start of a month. */
  function FirstOfMonth(year: int, month: int): Date {
    Date(year, month, 1, 0)
  }

  datatype Frequency = Once | Monthly | Annual

  /** A scheduled cash flow; `startDate` may be missing. */
  datatype Event = Event(id: int, eventType: string, value: real, frequency: Frequency, startDate: Option<Date>)

  datatype Goal = Goal(id: int, goalType: string, targetValue: real, targetDate: Date)

  datatype Wallet = Wallet(id: int, assetClass: string, percentage: real, totalValue: real)

  /** An insurance policy; the kind is the stored text ("LIFE", "DISABILITY"). */
  datatype Insurance = Insurance(id: int, kind: string, coverageValue: real)
}
