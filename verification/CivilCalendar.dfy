/** The two civil_from_days, against the Gregorian calendar counted day by day. */
module CivilCalendar {

  datatype Date = Date(year: int, month: int, day: int)

  // ------------------------------------------------------------- the calendar

  predicate Leap(y: int) {
    y % 4 == 0 && (y % 100 != 0 || y % 400 == 0)
  }

  function DaysIn(y: int, m: int): int {
    if m == 2 then if Leap(y) then 29 else 28
    else if m == 4 || m == 6 || m == 9 || m == 11 then 30
    else 31
  }

  predicate Valid(d: Date) {
    1 <= d.month <= 12 && 1 <= d.day <= DaysIn(d.year, d.month)
  }

  function Next(d: Date): Date {
    if d.day < DaysIn(d.year, d.month) then d.(day := d.day + 1)
    else if d.month < 12 then Date(d.year, d.month + 1, 1)
    else Date(d.year + 1, 1, 1)
  }

  function Previous(d: Date): Date {
    if d.day > 1 then d.(day := d.day - 1)
    else if d.month > 1 then Date(d.year, d.month - 1, DaysIn(d.year, d.month - 1))
    else Date(d.year - 1, 12, 31)
  }

  lemma PreviousUndoesNext(d: Date)
    requires Valid(d)
    ensures Valid(Next(d)) && Previous(Next(d)) == d
  {
  }

  const EPOCH: Date := Date(1970, 1, 1)

  /** The date z days after the epoch, or before it. */
  function Calendar(z: int): Date
    decreases if z < 0 then -z else z
  {
    if z == 0 then EPOCH else if z > 0 then Next(Calendar(z - 1)) else Previous(Calendar(z + 1))
  }

  // -------------------------------------------------------------- the two sources

  /** Integer division as Rust writes it: toward zero. */
  function Truncate(a: int, b: int): int
    requires b > 0
  {
    if a >= 0 then a / b else -(-a / b)
  }

  /** The day of a 400-year era, to year of era and day of year counted from March. */
  function YearOfEra(doe: int): int {
    (doe - doe / 1460 + doe / 36524 - doe / 146096) / 365
  }

  function YearStart(yoe: int): int {
    365 * yoe + yoe / 4 - yoe / 100
  }

  function MonthIndex(doy: int): int {
    (5 * doy + 2) / 153
  }

  function MonthStart(mp: int): int {
    (153 * mp + 2) / 5
  }

  /** crates/fluxd/src/time.rs. */
  function LogCivil(z: int): Date {
    var z := z + 719_468;
    var era := Truncate(if z >= 0 then z else z - 146_096, 146_097);
    var doe := z - era * 146_097;
    var yoe := YearOfEra(doe);
    var y := yoe + era * 400;
    var doy := doe - YearStart(yoe);
    var mp := MonthIndex(doy);
    var day := doy - MonthStart(mp) + 1;
    var month := if mp < 10 then mp + 3 else mp - 9;
    Date(if month <= 2 then y + 1 else y, month, day)
  }

  /** xtask/src/zip.rs; div_euclid and rem_euclid are Dafny's own. */
  function ZipCivil(z: int): Date {
    var z := z + 719_468;
    var era := z / 146_097;
    var doe := z % 146_097;
    var yoe := YearOfEra(doe);
    var doy := doe - YearStart(yoe);
    var mp := MonthIndex(doy);
    var day := doy - MonthStart(mp) + 1;
    var month := if mp < 10 then mp + 3 else mp - 9;
    var year := yoe + era * 400 + (if month <= 2 then 1 else 0);
    Date(year, month, day)
  }

  lemma EraAgrees(z: int)
    ensures Truncate(if z >= 0 then z else z - 146_096, 146_097) == z / 146_097
  {
  }

  /** The two agree on every day number. */
  lemma SourcesAgree(z: int)
    ensures LogCivil(z) == ZipCivil(z)
  {
    hide YearOfEra, YearStart, MonthIndex, MonthStart, Truncate;
    EraAgrees(z + 719_468);
  }

  // ------------------------------------------------------------------- proof

  function YearLength(yoe: int): int {
    365 + (if Leap(yoe + 1) then 1 else 0)
  }

  /** Division by one constant, given the quotient. */
  lemma Quotient(a: int, b: int, q: int)
    requires b > 0 && q * b <= a < q * b + b
    ensures a / b == q
  {
    var p := a / b;
    assert p * b <= a < p * b + b;
    assert p < q ==> (p + 1) * b <= q * b;
    assert p > q ==> (q + 1) * b <= p * b;
  }

  lemma StartOfParts(c: int, k: int, j: int)
    requires 0 <= c < 4 && 0 <= k < 25 && 0 <= j < 4
    ensures YearStart(100 * c + 4 * k + j) == 36524 * c + 1461 * k + 365 * j
  {
    Quotient(100 * c + 4 * k + j, 4, 25 * c + k);
    Quotient(100 * c + 4 * k + j, 100, c);
  }

  /** Day doe lies in year j of the k-th four of century c, d days in. */
  lemma YearOfParts(c: int, k: int, j: int, d: int)
    requires 0 <= c < 4 && 0 <= k < 25 && 0 <= j < 4 && 0 <= d < 365 + (if j == 3 && (k < 24 || c == 3) then 1 else 0)
    ensures YearOfEra(36524 * c + 1461 * k + 365 * j + d) == 100 * c + 4 * k + j
  {
    var doe := 36524 * c + 1461 * k + 365 * j + d;
    var e := if 24 * c + k + 365 * j + d >= 1460 then 1 else 0;
    var last := if doe == 146_096 then 1 else 0;
    Quotient(doe, 1460, 25 * c + k + e);
    Quotient(doe, 36524, c + last);
    Quotient(doe, 146_096, last);
    Quotient(doe - (25 * c + k + e) + c, 365, 100 * c + 4 * k + j);
  }

  /** The closed formula finds the year that holds the day. */
  lemma YearFound(doe: int)
    requires 0 <= doe < 146_097
    ensures var yoe := YearOfEra(doe);
            0 <= yoe < 400 && 0 <= doe - YearStart(yoe) < YearLength(yoe)
  {
    hide YearOfEra, YearStart;
    var c: int := if doe == 146_096 then 3 else doe / 36524;
    var r := doe - 36524 * c;
    var k := r / 1461;
    var j := if r % 1461 == 1460 then 3 else r % 1461 / 365;
    YearOfParts(c, k, j, r % 1461 - 365 * j);
    StartOfParts(c, k, j);
  }

  /** Consecutive years of an era do not overlap. */
  lemma YearStep(yoe: int)
    requires 0 <= yoe < 399
    ensures YearStart(yoe + 1) == YearStart(yoe) + YearLength(yoe)
  {
    hide YearStart;
    var c, k, j := yoe / 100, yoe % 100 / 4, yoe % 4;
    StartOfParts(c, k, j);
    if j < 3 {
      StartOfParts(c, k, j + 1);
    } else if k < 24 {
      StartOfParts(c, k + 1, 0);
    } else {
      StartOfParts(c + 1, 0, 0);
    }
  }

  lemma {:induction false} YearsApart(y0: int, y1: int)
    requires 0 <= y0 < y1 < 400
    ensures YearStart(y0) + YearLength(y0) <= YearStart(y1)
  {
    hide YearStart;
    if y1 == y0 + 1 {
      YearStep(y0);
    } else {
      YearsApart(y0, y1 - 1);
      YearStep(y1 - 1);
    }
  }

  /** So a day is in only one year. */
  lemma YearIs(doe: int, yoe: int)
    requires 0 <= doe < 146_097 && 0 <= yoe < 400 && 0 <= doe - YearStart(yoe) < YearLength(yoe)
    ensures YearOfEra(doe) == yoe
  {
    hide YearOfEra, YearStart;
    YearFound(doe);
    if YearOfEra(doe) < yoe {
      YearsApart(YearOfEra(doe), yoe);
    } else if yoe < YearOfEra(doe) {
      YearsApart(yoe, YearOfEra(doe));
    }
  }

  /** Day doy, counted from 1 March of year y. */
  function FromMarch(y: int, doy: int): Date {
    var mp := MonthIndex(doy);
    var month := if mp < 10 then mp + 3 else mp - 9;
    Date(if month <= 2 then y + 1 else y, month, doy - MonthStart(mp) + 1)
  }

  lemma NextInYear(y: int, doy: int)
    requires 0 <= doy && doy + 1 < 365 + (if Leap(y + 1) then 1 else 0)
    ensures Valid(FromMarch(y, doy)) && FromMarch(y, doy + 1) == Next(FromMarch(y, doy))
  {
    hide Leap;
    var mp := MonthIndex(doy);
    assert 0 <= mp < 12;
    assert MonthStart(mp) <= doy;
  }

  lemma NextAcrossYears(y: int)
    ensures var last := 364 + (if Leap(y + 1) then 1 else 0);
            Valid(FromMarch(y, last)) && FromMarch(y + 1, 0) == Next(FromMarch(y, last))
  {
  }

  lemma LeapRepeats(y: int, era: int)
    ensures Leap(y + 400 * era) == Leap(y)
  {
    Quotient(y + 400 * era, 4, y / 4 + 100 * era);
    Quotient(y + 400 * era, 100, y / 100 + 4 * era);
    Quotient(y + 400 * era, 400, y / 400 + era);
  }

  /** ZipCivil of day doe of an era. */
  lemma InEra(era: int, doe: int)
    requires 0 <= doe < 146_097
    ensures ZipCivil(146_097 * era + doe - 719_468) == FromMarch(YearOfEra(doe) + 400 * era, doe - YearStart(YearOfEra(doe)))
  {
    hide YearOfEra, YearStart, MonthIndex, MonthStart;
    Quotient(146_097 * era + doe, 146_097, era);
  }

  /** Day z + 1 is the calendar successor of day z, for every z. */
  lemma Successor(z: int)
    ensures Valid(ZipCivil(z)) && ZipCivil(z + 1) == Next(ZipCivil(z))
  {
    hide YearOfEra, YearStart, FromMarch, Leap, ZipCivil, Next, Valid;
    var era, doe := (z + 719_468) / 146_097, (z + 719_468) % 146_097;
    var yoe := YearOfEra(doe);
    var y, doy := yoe + 400 * era, doe - YearStart(yoe);
    YearFound(doe);
    InEra(era, doe);
    LeapRepeats(yoe + 1, era);
    if doy + 1 < YearLength(yoe) {
      NextInYear(y, doy);
      LastDayOfEra(doe);
      YearIs(doe + 1, yoe);
      InEra(era, doe + 1);
    } else {
      NextAcrossYears(y);
      if yoe < 399 {
        YearStep(yoe);
        LastDayOfEra(doe);
        YearIs(doe + 1, yoe + 1);
        InEra(era, doe + 1);
      } else {
        LastDayOfEra(doe);
        YearIs(0, 0);
        InEra(era + 1, 0);
      }
    }
  }

  /** The last day of an era is the last of its last year. */
  lemma LastDayOfEra(doe: int)
    requires 0 <= doe < 146_097
    ensures var yoe := YearOfEra(doe);
            doe == 146_096 <==> yoe == 399 && doe - YearStart(yoe) + 1 == YearLength(yoe)
    ensures YearStart(0) == 0 && YearLength(0) > 0
  {
    hide YearOfEra;
    YearFound(doe);
    YearIs(146_096, 399);
  }

  lemma EpochIsDayZero()
    ensures ZipCivil(0) == EPOCH
  {
  }

  /** Both sources give the Gregorian date of every day number. */
  lemma {:induction false} CivilIsCalendar(z: int)
    ensures LogCivil(z) == ZipCivil(z) == Calendar(z)
    decreases if z < 0 then -z else z
  {
    hide LogCivil, ZipCivil, Next, Previous, Valid;
    SourcesAgree(z);
    if z == 0 {
      EpochIsDayZero();
    } else if z > 0 {
      CivilIsCalendar(z - 1);
      Successor(z - 1);
    } else {
      CivilIsCalendar(z + 1);
      Successor(z);
      PreviousUndoesNext(ZipCivil(z));
    }
  }
}
