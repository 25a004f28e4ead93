/** Shared vocabulary of the model: optional values, identifiers, roles and calendar dates. */
module Common {

  datatype Option<+T> = None | Some(value: T) {
    function GetOr(default: T): T {
      match this
      case Some(v) => v
      case None => default
    }
  }

  datatype Result<+T> = Ok(value: T) | Err(status: int)

  /** Row identifiers. The database draws UUIDs; the model draws naturals from one counter. */
  type UserId = nat
  type LoanId = nat
  type PaymentId = nat
  type DeviceId = nat

  /** The `role` column of `users`. */
  datatype Role = Admin | Agent | SuperAgent | Customer

  /** A string request field as JavaScript's truthiness sees it: absent and empty are both false. */
  predicate Present(s: Option<string>) {
    s.Some? && s.value != ""
  }

  /** `s || d` on a string field. */
  function OrDefault(s: Option<string>, d: string): (r: string)
    ensures Present(s) ==> r == s.value
    ensures !Present(s) ==> r == d
  {
    if Present(s) then s.value else d
  }

  /** A month as `Date.getMonth` numbers it: 0 is January, 11 is December. */
  type Month = m: int | 0 <= m < 12

  datatype Date = Date(year: int, month: Month, day: int)

  /** Months elapsed since January of year 0; one calendar month later is one more. */
  function MonthIndex(d: Date): int {
    d.year * 12 + d.month
  }

  /**
   * `d.setMonth(d.getMonth() + 1)`: the same day of the following calendar month,
   * carrying into the next year after December.
   */
  function AddOneMonth(d: Date): (r: Date)
    ensures MonthIndex(r) == MonthIndex(d) + 1
    ensures r.day == d.day
  {
    if d.month == 11 then Date(d.year + 1, 0, d.day) else Date(d.year, d.month + 1, d.day)
  }
}
