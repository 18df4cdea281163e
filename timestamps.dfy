/** The journal's timestamp cells, written with `strftime('%Y-%m-%d %H:%M:%S')` and
    read back with `datetime.strptime(ts, "%Y-%m-%d %H:%M:%S")`. An instant is a count
    of seconds since 0001-01-01 00:00:00 in the proleptic Gregorian calendar that
    Python's `datetime` uses. */
module Timestamps {
  import opened Text

  const StampLength: nat := 19

  predicate IsLeapYear(y: int)
  {
    y % 4 == 0 && (y % 100 != 0 || y % 400 == 0)
  }

  function DaysInMonth(y: int, m: int): (d: nat)
    requires 1 <= m <= 12
    ensures 28 <= d <= 31
  {
    if m == 2 then (if IsLeapYear(y) then 29 else 28)
    else if m == 4 || m == 6 || m == 9 || m == 11 then 30
    else 31
  }

  function DaysInYear(y: int): nat
  {
    if IsLeapYear(y) then 366 else 365
  }

  /** Days from 1 January of year 1 to 1 January of year y. */
  function DaysBeforeYear(y: nat): nat
    requires y >= 1
  {
    if y == 1 then 0 else DaysBeforeYear(y - 1) + DaysInYear(y - 1)
  }

  /** Days from 1 January to the first of month m of year y. */
  function DaysBeforeMonth(y: int, m: nat): nat
    requires 1 <= m <= 12
  {
    if m == 1 then 0 else DaysBeforeMonth(y, m - 1) + DaysInMonth(y, m - 1)
  }

  /** The broken-down fields of a timestamp. */
  datatype Stamp = Stamp(year: nat, month: nat, day: nat, hour: nat, minute: nat, second: nat)

  /** The ranges `datetime` accepts. */
  predicate ValidStamp(t: Stamp)
  {
    1 <= t.year && 1 <= t.month <= 12 && 1 <= t.day <= DaysInMonth(t.year, t.month)
    && t.hour < 24 && t.minute < 60 && t.second < 60
  }

  function Seconds(t: Stamp): nat
    requires ValidStamp(t)
  {
    ((DaysBeforeYear(t.year) + DaysBeforeMonth(t.year, t.month) + t.day - 1) * 24 + t.hour) * 3600
    + t.minute * 60 + t.second
  }

  /** The canonical text shape `DDDD-DD-DD DD:DD:DD`. */
  predicate IsStampText(s: string)
  {
    |s| == StampLength && s[4] == '-' && s[7] == '-' && s[10] == ' ' && s[13] == ':' && s[16] == ':'
    && forall k :: 0 <= k < StampLength && k !in {4, 7, 10, 13, 16} ==> IsDigit(s[k])
  }

  function Field(s: string, from: nat, len: nat): nat
    requires IsStampText(s)
    requires (from, len) in {(0, 4), (5, 2), (8, 2), (11, 2), (14, 2), (17, 2)}
  {
    DigitsValue(s[from..from + len])
  }

  function Fields(s: string): Stamp
    requires IsStampText(s)
  {
    Stamp(Field(s, 0, 4), Field(s, 5, 2), Field(s, 8, 2), Field(s, 11, 2), Field(s, 14, 2), Field(s, 17, 2))
  }

  /** `strptime(s, "%Y-%m-%d %H:%M:%S")` on canonical text: the instant, or None
      where Python raises ValueError. */
  function Instant(s: string): Option<nat>
  {
    if IsStampText(s) && ValidStamp(Fields(s)) then Some(Seconds(Fields(s))) else None
  }
}
