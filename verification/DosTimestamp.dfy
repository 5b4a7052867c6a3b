/** The DOS timestamps of the two ZIP writers, read back field by field. */
module DosTimestamp {
  import opened CivilCalendar

  const DAY: int := 86_400
  const DOS_EPOCH: int := 315_532_800
  // Day 3652 is 1980-01-01.
  const DOS_DAY: int := 3652

  /** A packed date and time, as two u16. Their fields share no bits, so each or is
      a sum. */
  datatype Stamp = Stamp(date: int, time: int)

  function Pack(year7: int, d: Date, tod: int): Stamp {
    Stamp(year7 * 512 + d.month * 32 + d.day, tod / 3600 * 2048 + tod / 60 % 60 * 32 + tod % 60 / 2)
  }

  /** xtask/src/zip.rs: the seconds are clamped, and a u16 shift drops high bits. */
  function ZipStamp(secs: int): Stamp {
    var s := if secs > DOS_EPOCH then secs else DOS_EPOCH;
    var d := ZipCivil(s / DAY);
    Pack((d.year - 1980) % 65536 * 512 % 65536 / 512, d, s % DAY)
  }

  /** Years past 1980, held to seven bits by clamping. */
  function Clamped(year: int): int {
    if year < 1980 then 0 else if year > 2107 then 127 else year - 1980
  }

  /** crates/fluxd/src/bugreport.rs: the year is clamped. */
  function ReportStamp(secs: int): Stamp {
    var d := LogCivil(secs / DAY);
    Pack(Clamped(d.year), d, secs % DAY)
  }

  datatype Fields = Fields(year: int, month: int, day: int, hour: int, minute: int, twoSeconds: int)

  /** The fields of a stamp, as an unpacker reads them. */
  function Unpack(s: Stamp): Fields {
    Fields(1980 + s.date / 512, s.date / 32 % 16, s.date % 32, s.time / 2048, s.time / 32 % 64, s.time % 32)
  }

  /** What a stamp is meant to hold. */
  function FieldsOf(year7: int, d: Date, tod: int): Fields {
    Fields(1980 + year7, d.month, d.day, tod / 3600, tod / 60 % 60, tod % 60 / 2)
  }

  lemma PackRoundTrip(year7: int, d: Date, tod: int)
    requires 0 <= year7 < 128 && 1 <= d.month <= 12 && 1 <= d.day <= 31 && 0 <= tod < DAY
    ensures Unpack(Pack(year7, d, tod)) == FieldsOf(year7, d, tod)
  {
    var s := Pack(year7, d, tod);
    Quotient(s.date, 512, year7);
    Quotient(s.date, 32, year7 * 16 + d.month);
    Quotient(s.time, 2048, tod / 3600);
    Quotient(s.time, 32, tod / 3600 * 64 + tod / 60 % 60);
    assert (year7 * 16 + d.month) % 16 == d.month;
    assert (tod / 3600 * 64 + tod / 60 % 60) % 64 == tod / 60 % 60;
  }

  lemma ValidDay(d: Date)
    requires Valid(d)
    ensures 1 <= d.month <= 12 && 1 <= d.day <= 31
  {
  }

  lemma {:induction false} YearsAdvance(z: int, n: nat)
    ensures ZipCivil(z).year <= ZipCivil(z + n).year
  {
    hide ZipCivil;
    if n > 0 {
      YearsAdvance(z, n - 1);
      Successor(z + n - 1);
    }
  }

  lemma DosEpochDate()
    ensures ZipCivil(DOS_DAY) == Date(1980, 1, 1) && ZipCivil(DOS_DAY - 1).year == 1979
  {
    Quotient(723_120, 146_097, 4);
    assert YearOfEra(138_732) == 379 && YearStart(379) == 138_426 && MonthIndex(306) == 10 && MonthStart(10) == 306;
    Quotient(723_119, 146_097, 4);
    assert YearOfEra(138_731) == 379 && MonthIndex(305) == 9 && MonthStart(9) == 275;
  }

  /** Before the DOS epoch the year is below 1980, from then on it is not. */
  lemma DosEpochSplits(z: int)
    ensures ZipCivil(z).year >= 1980 <==> z >= DOS_DAY
  {
    DosEpochDate();
    hide ZipCivil;
    if z >= DOS_DAY {
      YearsAdvance(DOS_DAY, z - DOS_DAY);
    } else {
      YearsAdvance(z, DOS_DAY - 1 - z);
    }
  }

  lemma SevenBits(y: int)
    requires y >= 0
    ensures y % 65536 * 512 % 65536 / 512 == y % 128
  {
    var w := y % 65536;
    assert w % 128 == y % 128;
    Quotient(w * 512, 65536, w / 128);
    Quotient(w % 128 * 512, 512, w % 128);
  }

  /** Within the format's range the packager's stamp unpacks to the UTC date and time
      of the second, to two seconds; anything earlier is the DOS epoch. */
  lemma ZipStampReadsBack(secs: int)
    requires ZipCivil(secs / DAY).year <= 2107
    ensures var s := if secs > DOS_EPOCH then secs else DOS_EPOCH; var d := Calendar(s / DAY); var tod := s % DAY;
            Unpack(ZipStamp(secs)) == FieldsOf(d.year - 1980, d, tod)
  {
    DosEpochDate();
    hide ZipCivil, LogCivil, Calendar, Pack, Unpack, Valid;
    var s := if secs > DOS_EPOCH then secs else DOS_EPOCH;
    var d := ZipCivil(s / DAY);
    CivilIsCalendar(s / DAY);
    Successor(s / DAY);
    ValidDay(d);
    DosEpochSplits(s / DAY);
    SevenBits(d.year - 1980);
    PackRoundTrip(d.year - 1980, d, s % DAY);
  }

  lemma FirstSeconds(tod: int)
    requires 0 <= tod
    ensures tod / 3600 == 0 && tod / 60 % 60 == 0 && tod % 60 / 2 == 0 <==> tod < 2
  {
    if tod < 2 {
      Quotient(tod, 3600, 0);
      Quotient(tod, 60, 0);
    } else if tod / 3600 == 0 && tod / 60 % 60 == 0 {
      assert tod / 60 < 60;
      assert tod / 60 == 0;
      assert tod % 60 == tod;
    }
  }

  lemma StartFields(d: Date, tod: int)
    requires 0 <= tod
    ensures FieldsOf(0, d, tod) == FieldsOf(0, Date(1980, 1, 1), 0) <==> d.month == 1 && d.day == 1 && tod < 2
  {
    FirstSeconds(tod);
    FirstSeconds(0);
  }

  /** A stamp is made from its fields only. */
  lemma PackOfFields(year7: int, d: Date, e: Date, tod: int, tod': int)
    requires FieldsOf(year7, d, tod) == FieldsOf(year7, e, tod')
    ensures Pack(year7, d, tod) == Pack(year7, e, tod')
  {
  }

  /** Only the first two seconds of a year share the stamp of its start. */
  lemma SameStamp(d: Date, tod: int)
    requires 1 <= d.month <= 12 && 1 <= d.day <= 31 && 0 <= tod < DAY
    ensures Pack(0, d, tod) == Pack(0, Date(1980, 1, 1), 0) <==> d.month == 1 && d.day == 1 && tod < 2
  {
    hide Pack, Unpack, FieldsOf;
    PackRoundTrip(0, d, tod);
    PackRoundTrip(0, Date(1980, 1, 1), 0);
    StartFields(d, tod);
    if FieldsOf(0, d, tod) == FieldsOf(0, Date(1980, 1, 1), 0) {
      PackOfFields(0, d, Date(1980, 1, 1), tod, 0);
    }
  }

  lemma AgreeBefore(secs: nat)
    requires secs / DAY < DOS_DAY
    ensures var d := ZipCivil(secs / DAY);
            ZipStamp(secs) == ReportStamp(secs) <==> d.month == 1 && d.day == 1 && secs % DAY < 2
  {
    DosEpochDate();
    hide ZipCivil, LogCivil, Pack, Unpack, Valid;
    var d := ZipCivil(secs / DAY);
    SourcesAgree(secs / DAY);
    Successor(secs / DAY);
    ValidDay(d);
    DosEpochSplits(secs / DAY);
    Quotient(DOS_EPOCH, DAY, DOS_DAY);
    SameStamp(d, secs % DAY);
    assert secs < DOS_EPOCH;
  }

  lemma StampForms(secs: nat)
    requires secs / DAY >= DOS_DAY
    ensures var d := ZipCivil(secs / DAY);
            && ZipStamp(secs) == Pack((d.year - 1980) % 128, d, secs % DAY)
            && ReportStamp(secs) == Pack(Clamped(d.year), d, secs % DAY)
  {
    hide ZipCivil, LogCivil, Pack;
    SourcesAgree(secs / DAY);
    DosEpochSplits(secs / DAY);
    assert secs >= DOS_EPOCH;
    SevenBits(ZipCivil(secs / DAY).year - 1980);
  }

  lemma YearWraps(year: int)
    requires year >= 1980
    ensures 0 <= Clamped(year) < 128
    ensures (year - 1980) % 128 == Clamped(year) <==> year <= 2107 || year % 128 == 2107 % 128
  {
  }

  lemma PackTellsYears(a: int, b: int, d: Date, tod: int)
    requires 0 <= a < 128 && 0 <= b < 128 && 1 <= d.month <= 12 && 1 <= d.day <= 31 && 0 <= tod < DAY
    ensures Pack(a, d, tod) == Pack(b, d, tod) <==> a == b
  {
    hide Pack, Unpack;
    PackRoundTrip(a, d, tod);
    PackRoundTrip(b, d, tod);
  }

  lemma AgreeAfter(secs: nat)
    requires secs / DAY >= DOS_DAY
    ensures var d := ZipCivil(secs / DAY);
            ZipStamp(secs) == ReportStamp(secs) <==> d.year <= 2107 || d.year % 128 == 2107 % 128
  {
    hide ZipCivil, ZipStamp, ReportStamp, Pack, Unpack, Valid, Clamped;
    var d := ZipCivil(secs / DAY);
    DosEpochSplits(secs / DAY);
    Successor(secs / DAY);
    ValidDay(d);
    StampForms(secs);
    YearWraps(d.year);
    PackTellsYears((d.year - 1980) % 128, Clamped(d.year), d, secs % DAY);
  }

  /** The two writers stamp a second alike exactly when it lies in the format's range,
      or in the first two seconds of a year before it, or in a later year that wraps
      to the last one. */
  lemma StampsAgreeExactly(secs: nat)
    ensures var d := ZipCivil(secs / DAY);
            ZipStamp(secs) == ReportStamp(secs) <==>
              if d.year < 1980 then d.month == 1 && d.day == 1 && secs % DAY < 2
              else d.year <= 2107 || d.year % 128 == 2107 % 128
  {
    hide ZipCivil, ZipStamp, ReportStamp;
    DosEpochSplits(secs / DAY);
    if secs / DAY < DOS_DAY {
      AgreeBefore(secs);
    } else {
      AgreeAfter(secs);
    }
  }
}
