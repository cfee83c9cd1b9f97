/**
 * The time window of the dashboard statistics (`getDateCond` inside the
 * `/api/admin/stats` handler of src/app.js): `all` puts no condition on the
 * queries, `30d` looks back 30 days and every other period 7 days, in the
 * SQL dialect of the configured driver.
 */
module Stats {
  import opened Wrappers
  import opened JsValues

  datatype Driver = Pg | Sqlite

  /** `period` from the query string, `'7d'` when absent. */
  function PeriodOf(query: Option<string>): string
  {
    if query.None? then "7d" else query.value
  }

  /** `String(period) === '30d' ? 30 : 7`. */
  function Days(period: string): (d: nat)
    ensures d == 30 <==> period == "30d"
    ensures d == 7 || d == 30
  {
    if period == "30d" then 30 else 7
  }

  function DaysText(d: nat): string
    requires d == 7 || d == 30
  {
    if d == 30 then "30" else "7"
  }

  /** The clause that limits column `col` to the window, in the driver's dialect. */
  function Window(driver: Driver, days: nat): string
    requires days == 7 || days == 30
  {
    match driver
    case Pg => "NOW() - INTERVAL '" + DaysText(days) + " days'"
    case Sqlite => "datetime('now', '-" + DaysText(days) + " days')"
  }

  /** getDateCond(col): the SQL appended to each statistics query. */
  function DateCond(query: Option<string>, driver: Driver, col: string): string
  {
    var period := PeriodOf(query);
    if period == "all" then "" else " AND " + col + " >= " + Window(driver, Days(period))
  }

  /**
   * No condition exactly for `all`; otherwise `col` is compared with the
   * start of a 30-day window for `30d` and a 7-day window for anything
   * else, the missing period included.
   */
  lemma DateCondRule(query: Option<string>, driver: Driver, col: string)
    ensures DateCond(query, driver, col) == "" <==> query == Some("all")
    ensures query != Some("all") ==>
      var days := if query == Some("30d") then 30 else 7;
      DateCond(query, driver, col) == " AND " + col + " >= " + Window(driver, days)
  {
  }

  /** An unknown period such as `90d` falls back to the 7-day window, the same as no period. */
  lemma UnknownPeriodIsSevenDays(driver: Driver, col: string)
    ensures DateCond(Some("90d"), driver, col) == DateCond(None, driver, col)
  {
  }
}
