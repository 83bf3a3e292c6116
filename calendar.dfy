/**
 * The time dimension of d_tiempo_etl.py: one record per day of a Gregorian
 * year, from January 1 to December 31, keyed by the YYYYMMDD integer. The
 * year is a parameter (the source uses the current year); `datetime.date`
 * is modelled by its proleptic Gregorian rules and its range of years 1 to 9999.
 */
module Calendar {
  import opened Wrappers
  import opened Ascii
  import opened Selection

  datatype Date = Date(year: int, month: int, day: int)

  predicate IsLeapYear(y: int) {
    y % 4 == 0 && (y % 100 != 0 || y % 400 == 0)
  }

  function DaysInMonth(y: int, m: int): (n: int)
    requires 1 <= m <= 12
    ensures 28 <= n <= 31
    ensures n == 29 <==> m == 2 && IsLeapYear(y)
  {
    if m == 2 then (if IsLeapYear(y) then 29 else 28)
    else if m == 4 || m == 6 || m == 9 || m == 11 then 30
    else 31
  }

  function DaysInYear(y: int): int {
    if IsLeapYear(y) then 366 else 365
  }

  predicate ValidDate(d: Date) {
    1 <= d.month <= 12 && 1 <= d.day <= DaysInMonth(d.year, d.month)
  }

  /** `d + timedelta(days=1)`, ignoring the upper end of `date`'s range. */
  function NextDay(d: Date): (n: Date)
    requires ValidDate(d)
    ensures ValidDate(n)
    ensures n.year == d.year || (d.month == 12 && d.day == 31 && n == Date(d.year + 1, 1, 1))
  {
    if d.day < DaysInMonth(d.year, d.month) then Date(d.year, d.month, d.day + 1)
    else if d.month < 12 then Date(d.year, d.month + 1, 1)
    else Date(d.year + 1, 1, 1)
  }

  /** `a <= b` on dates: year, then month, then day. */
  predicate NotAfter(a: Date, b: Date) {
    a.year < b.year || (a.year == b.year && (a.month < b.month || (a.month == b.month && a.day <= b.day)))
  }

  /** Days of the year before the first of month `m`. */
  function DaysBeforeMonth(y: int, m: int): int
    requires 1 <= m <= 12
  {
    if m == 1 then 0 else DaysBeforeMonth(y, m - 1) + DaysInMonth(y, m - 1)
  }

  /** Zero-based position of a date in its year. */
  function Ordinal(d: Date): int
    requires ValidDate(d)
  {
    DaysBeforeMonth(d.year, d.month) + d.day - 1
  }

  /** December 31 is the last day: the months add up to 365 days, 366 in a leap year. */
  lemma DecemberThirtyFirst(y: int)
    ensures Ordinal(Date(y, 12, 31)) == DaysInYear(y) - 1
  {
    var l := if IsLeapYear(y) then 1 else 0;
    assert DaysBeforeMonth(y, 2) == 31;
    assert DaysBeforeMonth(y, 3) == 59 + l;
    assert DaysBeforeMonth(y, 4) == 90 + l;
    assert DaysBeforeMonth(y, 5) == 120 + l;
    assert DaysBeforeMonth(y, 6) == 151 + l;
    assert DaysBeforeMonth(y, 7) == 181 + l;
    assert DaysBeforeMonth(y, 8) == 212 + l;
    assert DaysBeforeMonth(y, 9) == 243 + l;
    assert DaysBeforeMonth(y, 10) == 273 + l;
    assert DaysBeforeMonth(y, 11) == 304 + l;
    assert DaysBeforeMonth(y, 12) == 334 + l;
  }

  /** Within a year the next day is one position further. */
  lemma NextDayOrdinal(d: Date)
    requires ValidDate(d) && !(d.month == 12 && d.day == 31)
    ensures NextDay(d).year == d.year && Ordinal(NextDay(d)) == Ordinal(d) + 1
  {
  }

  /** The YYYYMMDD number of a date. */
  function DateKey(d: Date): int {
    d.year * 10000 + d.month * 100 + d.day
  }

  /** The key grows from each day to the next, across months and years. */
  lemma NextDayKeyGrows(d: Date)
    requires ValidDate(d)
    ensures DateKey(d) < DateKey(NextDay(d))
  {
  }

  /** `obtener_nombre_mes`: the dictionary lookup, None where it raises `KeyError`. */
  function MonthName(m: int): (r: Option<string>)
    ensures r.Some? <==> 1 <= m <= 12
    ensures r.Some? ==> 0 < |r.value| <= 10
  {
    if m == 1 then Some("Enero") else if m == 2 then Some("Febrero") else if m == 3 then Some("Marzo")
    else if m == 4 then Some("Abril") else if m == 5 then Some("Mayo") else if m == 6 then Some("Junio")
    else if m == 7 then Some("Julio") else if m == 8 then Some("Agosto") else if m == 9 then Some("Septiembre")
    else if m == 10 then Some("Octubre") else if m == 11 then Some("Noviembre") else if m == 12 then Some("Diciembre")
    else None
  }

  /** `obtener_semestre`: the first six months are the first semester; both names fit VARCHAR(12). */
  function Semester(m: int): (r: (int, string))
    ensures r.0 == 1 <==> m <= 6
    ensures r == (1, "PRIMER SEM") || r == (2, "SEGUNDO SEM")
    ensures |r.1| <= 12
  {
    if m <= 6 then (1, "PRIMER SEM") else (2, "SEGUNDO SEM")
  }

  /** For the twelve months the semester number is the month's half of the year. */
  lemma SemesterIsHalf(m: int)
    requires 1 <= m <= 12
    ensures Semester(m).0 == (m - 1) / 6 + 1
  {
  }

  /** `strftime('%Y%m%d')`: the year (not padded when below 1000, as glibc prints it), then two-digit month and day. */
  function Strftime(d: Date): string
    requires ValidDate(d) && d.year >= 1
  {
    Decimal(d.year) + [DigitChar(d.month / 10), DigitChar(d.month % 10), DigitChar(d.day / 10), DigitChar(d.day % 10)]
  }

  lemma DigitsValueSnoc(s: string, c: char)
    requires IsDigit(c)
    ensures DigitsValue(s + [c]) == 10 * DigitsValue(s) + (c as int - '0' as int)
  {
    assert (s + [c])[..|s|] == s;
  }

  /** `int(dia.strftime('%Y%m%d'))` is the date's YYYYMMDD number. */
  lemma StrftimeParses(d: Date)
    requires ValidDate(d) && d.year >= 1
    ensures ParsePyInt(Strftime(d)) == Some(DateKey(d))
  {
    var a := Decimal(d.year);
    var c0, c1, c2, c3 := DigitChar(d.month / 10), DigitChar(d.month % 10), DigitChar(d.day / 10), DigitChar(d.day % 10);
    var s := Strftime(d);
    assert s == a + [c0] + [c1] + [c2] + [c3];
    DigitsValueDecimal(d.year);
    DigitsValueSnoc(a, c0);
    DigitsValueSnoc(a + [c0], c1);
    DigitsValueSnoc(a + [c0] + [c1], c2);
    DigitsValueSnoc(a + [c0] + [c1] + [c2], c3);
    assert DigitsValue(s) == DateKey(d);
    assert forall i :: 0 <= i < |s| ==> IsDigit(s[i]);
    StripKeeps(s);
    assert IsDigitGroups(s);
  }

  /** One row of `d_tiempo`. */
  datatype Record = Record(
    idTiempo: int,
    anio: int,
    mesNum: int,
    mesNombre: string,
    semNum: int,
    semNombre: string,
    dia: Date)

  /** The record of a day, as the loop of `generar_calendario` builds it. */
  function RecordOf(d: Date): Record
    requires ValidDate(d)
  {
    Record(DateKey(d), d.year, d.month, MonthName(d.month).value, Semester(d.month).0, Semester(d.month).1, d)
  }

  /** The body of the loop of `generar_calendario`: the record of one day. */
  method MakeRecord(dia: Date) returns (rec: Record)
    requires ValidDate(dia) && dia.year >= 1
    ensures rec == RecordOf(dia)
    ensures rec.idTiempo == dia.year * 10000 + dia.month * 100 + dia.day
  {
    StrftimeParses(dia);
    var id := ParsePyInt(Strftime(dia)).value;
    var mes := dia.month;
    var sem := Semester(mes);
    rec := Record(id, dia.year, mes, MonthName(mes).value, sem.0, sem.1, dia);
  }

  /** Records of consecutive days, each built from its own day. */
  ghost predicate ConsecutiveDays(c: seq<Record>) {
    && (forall i :: 0 <= i < |c| ==> ValidDate(c[i].dia) && c[i].idTiempo == DateKey(c[i].dia))
    && (forall i :: 0 <= i < |c| - 1 ==> c[i + 1].dia == NextDay(c[i].dia))
  }

  /** Over consecutive days the keys strictly increase, so they are unique as the primary key needs. */
  lemma {:induction false} KeysIncrease(c: seq<Record>)
    requires ConsecutiveDays(c)
    ensures forall i, j :: 0 <= i < j < |c| ==> c[i].idTiempo < c[j].idTiempo
  {
    if |c| > 1 {
      var p := c[..|c| - 1];
      assert ConsecutiveDays(p);
      KeysIncrease(p);
      NextDayKeyGrows(c[|c| - 2].dia);
      forall i, j | 0 <= i < j < |c|
        ensures c[i].idTiempo < c[j].idTiempo
      {
        if j < |c| - 1 {
          assert c[i] == p[i] && c[j] == p[j];
        } else if i < |c| - 2 {
          assert c[i] == p[i] && c[|c| - 2] == p[|c| - 2];
        }
      }
    }
  }

  /** The records built before day `dia`: the days of year `y` from January 1, each followed by the next. */
  ghost predicate YearSoFar(y: int, days: seq<Record>, dia: Date) {
    && (forall i :: 0 <= i < |days| ==> ValidDate(days[i].dia) && days[i] == RecordOf(days[i].dia) && days[i].anio == y)
    && (days != [] ==> days[0].dia == Date(y, 1, 1) && NextDay(days[|days| - 1].dia) == dia)
    && (forall i :: 0 <= i < |days| - 1 ==> days[i + 1].dia == NextDay(days[i].dia))
  }

  lemma YearSoFarStep(y: int, days: seq<Record>, dia: Date)
    requires ValidDate(dia) && dia.year == y
    requires days == [] ==> dia == Date(y, 1, 1)
    requires YearSoFar(y, days, dia)
    ensures YearSoFar(y, days + [RecordOf(dia)], NextDay(dia))
  {
  }

  /**
   * `generar_calendario(y)`: None where `date(y, 1, 1)` raises (y outside
   * 1..9999) or where stepping past December 31, 9999 overflows.
   */
  method GenerateCalendar(y: int) returns (cal: Option<seq<Record>>)
    ensures cal.Some? <==> 1 <= y <= 9998
    ensures cal.Some? ==>
              var c := cal.value;
              && |c| == DaysInYear(y)
              && (|c| == 366 <==> IsLeapYear(y))
              && c[0].dia == Date(y, 1, 1) && c[|c| - 1].dia == Date(y, 12, 31)
              && (forall i :: 0 <= i < |c| ==> ValidDate(c[i].dia) && c[i] == RecordOf(c[i].dia) && c[i].anio == y)
              && (forall i :: 0 <= i < |c| - 1 ==> c[i + 1].dia == NextDay(c[i].dia))
              && (forall i, j :: 0 <= i < j < |c| ==> c[i].idTiempo < c[j].idTiempo)
  {
    if !(1 <= y <= 9999) {
      return None;
    }
    var fin := Date(y, 12, 31);
    var days: seq<Record> := [];
    var dia := Date(y, 1, 1);
    DecemberThirtyFirst(y);
    while NotAfter(dia, fin)
      invariant ValidDate(dia)
      invariant dia.year == y || dia == Date(y + 1, 1, 1)
      invariant y == 9999 ==> dia.year == y
      invariant dia.year == y ==> |days| == Ordinal(dia)
      invariant dia.year != y ==> |days| == DaysInYear(y)
      invariant days == [] <==> dia == Date(y, 1, 1)
      invariant YearSoFar(y, days, dia)
      decreases y + 1 - dia.year, 12 - dia.month, 31 - dia.day
    {
      var rec := MakeRecord(dia);
      YearSoFarStep(y, days, dia);
      days := days + [rec];
      if dia == Date(9999, 12, 31) {
        return None;
      }
      if !(dia.month == 12 && dia.day == 31) {
        NextDayOrdinal(dia);
      }
      dia := NextDay(dia);
    }
    assert ConsecutiveDays(days);
    KeysIncrease(days);
    return Some(days);
  }
}
