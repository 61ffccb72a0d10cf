/** Points in time, to the second, as the cache stores them in names. */
module Stamps {

  datatype Stamp = Stamp(year: nat, month: nat, day: nat, hour: nat, minute: nat, second: nat)

  function DaysIn(year: nat, month: nat): nat {
    if month == 2 then (if year % 4 == 0 && (year % 100 != 0 || year % 400 == 0) then 29 else 28)
    else if month == 4 || month == 6 || month == 9 || month == 11 then 30
    else 31
  }

  predicate IsDate(s: Stamp) {
    && 1 <= s.year <= 9999 && 1 <= s.month <= 12 && 1 <= s.day <= DaysIn(s.year, s.month)
    && s.hour < 24 && s.minute < 60 && s.second < 60
  }

  predicate Earlier(s: Stamp, t: Stamp) {
    if s.year != t.year then s.year < t.year
    else if s.month != t.month then s.month < t.month
    else if s.day != t.day then s.day < t.day
    else if s.hour != t.hour then s.hour < t.hour
    else if s.minute != t.minute then s.minute < t.minute
    else s.second < t.second
  }
}
