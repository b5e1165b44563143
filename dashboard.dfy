/**
 * The administrator's dashboard (frontend/src/components/Dashboard.tsx): the
 * per-status counts, the `YYYY-MM-DD` key of a calendar day, the appointments
 * and blocked flag of a day, the month grid's length and starting weekday, the
 * actions offered on an appointment, and the rejection and price-editing state.
 *
 * The calendar follows the day arithmetic of ECMA-262 (section 21.4.1, "Time
 * Values and Time Range": DayFromYear, InLeapYear, MakeDay and WeekDay), with the
 * rule of the `Date` constructor (section 21.4.2.1) that a year from 0 to 99
 * means 1900 plus that year.
 */
module Dashboard {
  import opened Types
  import opened Strings
  import opened Lists
  import Booking
  import App

  // ---------------------------------------------------------------------------
  // stats

  function StatusIs(status: string): Appointment -> bool
  {
    (a: Appointment) => a.status == status
  }

  /** `appointments.filter(a => a.status === status).length`. */
  function CountStatus(apts: seq<Appointment>, status: string): (n: nat)
    ensures n <= |apts|
  {
    |Filter(apts, StatusIs(status))|
  }

  datatype Stats = Stats(pending: nat, approved: nat, rejected: nat, cancelled: nat, total: nat)

  /** `stats`: one exact-text count per status, and the length of the list. */
  function ComputeStats(apts: seq<Appointment>): (s: Stats)
    ensures s.total == |apts|
    ensures s.pending <= s.total && s.approved <= s.total && s.rejected <= s.total && s.cancelled <= s.total
  {
    Stats(CountStatus(apts, "pending"), CountStatus(apts, "approved"),
          CountStatus(apts, "rejected"), CountStatus(apts, "cancelled"), |apts|)
  }

  lemma CountStatusCons(apts: seq<Appointment>, status: string)
    requires apts != []
    ensures CountStatus(apts, status) ==
            (if apts[0].status == status then 1 else 0) + CountStatus(apts[1..], status)
  {
  }

  /** When every status is one of the four names, the four counts add up to the total. */
  lemma {:induction false} StatsAddUp(apts: seq<Appointment>)
    requires forall i :: 0 <= i < |apts| ==> IsStatus(apts[i].status)
    ensures var s := ComputeStats(apts);
            s.pending + s.approved + s.rejected + s.cancelled == s.total
  {
    if apts != [] {
      StatsAddUp(apts[1..]);
      CountStatusCons(apts, "pending");
      CountStatusCons(apts, "approved");
      CountStatusCons(apts, "rejected");
      CountStatusCons(apts, "cancelled");
      assert IsStatus(apts[0].status);
    }
  }

  // ---------------------------------------------------------------------------
  // Day keys, appointments of a day, blocked days

  /** `${year}-${String(month + 1).padStart(2, '0')}-${String(day).padStart(2, '0')}`,
      with `month` counted from 0 as `getMonth` gives it. */
  function DateKey(year: int, month: nat, day: nat): string
  {
    IntToString(year) + "-" + Pad2(month + 1) + "-" + Pad2(day)
  }

  lemma Pad2Length(n: nat)
    requires n < 100
    ensures |Pad2(n)| == 2
  {
  }

  /** With a four-digit year, the key is ten characters long. */
  lemma DateKeyLength(year: int, month: nat, day: nat)
    requires 1000 <= year < 10000 && month < 12 && day < 100
    ensures |DateKey(year, month, day)| == 10
  {
    Pad2Length(month + 1);
    Pad2Length(day);
  }

  /** Where the year, the month and the day sit in a key. */
  lemma DateKeyParts(year: int, month: nat, day: nat)
    requires month < 12 && day < 100
    ensures var k := DateKey(year, month, day);
            |k| == |IntToString(year)| + 6 && k[..|k| - 6] == IntToString(year) &&
            k[|k| - 5..|k| - 3] == Pad2(month + 1) && k[|k| - 2..] == Pad2(day)
  {
    Pad2Length(month + 1);
    Pad2Length(day);
    KeySlices(IntToString(year), Pad2(month + 1), Pad2(day));
  }

  lemma KeySlices(y: string, m: string, d: string)
    requires |m| == 2 && |d| == 2
    ensures var k := y + "-" + m + "-" + d;
            |k| == |y| + 6 && k[..|k| - 6] == y && k[|k| - 5..|k| - 3] == m && k[|k| - 2..] == d
  {
    var k := y + "-" + m + "-" + d;
    assert k == y + (['-'] + m + ['-'] + d);
  }

  /** Two keys with two-character month and day parts agree only part by part. */
  lemma KeyPartsInjective(y1: string, m1: string, d1: string, y2: string, m2: string, d2: string)
    requires |m1| == 2 && |d1| == 2 && |m2| == 2 && |d2| == 2
    requires y1 + "-" + m1 + "-" + d1 == y2 + "-" + m2 + "-" + d2
    ensures y1 == y2 && m1 == m2 && d1 == d2
  {
    KeySlices(y1, m1, d1);
    KeySlices(y2, m2, d2);
  }

  lemma Pad2Injective(a: nat, b: nat)
    requires Pad2(a) == Pad2(b)
    ensures a == b
  {
    Pad2Value(a);
    Pad2Value(b);
  }

  /** Different days have different keys. */
  lemma DateKeyInjective(y1: int, m1: nat, d1: nat, y2: int, m2: nat, d2: nat)
    requires m1 < 12 && d1 < 100 && m2 < 12 && d2 < 100
    requires DateKey(y1, m1, d1) == DateKey(y2, m2, d2)
    ensures y1 == y2 && m1 == m2 && d1 == d2
  {
    DateKeyPartsEqual(y1, m1, d1, y2, m2, d2);
    KeyTextsInjective(y1, m1, d1, y2, m2, d2);
  }

  /** Equal year, month and day texts come from equal numbers. */
  lemma KeyTextsInjective(y1: int, m1: nat, d1: nat, y2: int, m2: nat, d2: nat)
    requires IntToString(y1) == IntToString(y2) && Pad2(m1 + 1) == Pad2(m2 + 1) && Pad2(d1) == Pad2(d2)
    ensures y1 == y2 && m1 == m2 && d1 == d2
  {
    MonthDayInjective(m1, d1, m2, d2);
    IntToStringInjective(y1, y2);
  }

  lemma MonthDayInjective(m1: nat, d1: nat, m2: nat, d2: nat)
    requires Pad2(m1 + 1) == Pad2(m2 + 1) && Pad2(d1) == Pad2(d2)
    ensures m1 == m2 && d1 == d2
  {
    var a, b := m1 + 1, m2 + 1;
    Pad2Injective(a, b);
    Pad2Injective(d1, d2);
  }

  /** Equal keys have equal year, month and day texts. */
  lemma DateKeyPartsEqual(y1: int, m1: nat, d1: nat, y2: int, m2: nat, d2: nat)
    requires m1 < 12 && d1 < 100 && m2 < 12 && d2 < 100
    requires DateKey(y1, m1, d1) == DateKey(y2, m2, d2)
    ensures IntToString(y1) == IntToString(y2) && Pad2(m1 + 1) == Pad2(m2 + 1) && Pad2(d1) == Pad2(d2)
  {
    Pad2Length(m1 + 1);
    Pad2Length(d1);
    Pad2Length(m2 + 1);
    Pad2Length(d2);
    KeyPartsInjective(IntToString(y1), Pad2(m1 + 1), Pad2(d1), IntToString(y2), Pad2(m2 + 1), Pad2(d2));
  }

  function DateIs(key: string): Appointment -> bool
  {
    (a: Appointment) => a.date == key
  }

  /** `getAppointmentsForDate(day)` for the month shown. */
  function AppointmentsForDate(apts: seq<Appointment>, year: int, month: nat, day: nat): (r: seq<Appointment>)
    ensures |r| <= |apts|
    ensures forall i :: 0 <= i < |r| ==> r[i].date == DateKey(year, month, day)
  {
    Filter(apts, DateIs(DateKey(year, month, day)))
  }

  /** The day's appointments are exactly those with that date text, each as often
      as it occurs in the list. */
  lemma AppointmentsForDateExact(apts: seq<Appointment>, year: int, month: nat, day: nat, a: Appointment)
    ensures a in AppointmentsForDate(apts, year, month, day) <==> a in apts && a.date == DateKey(year, month, day)
    ensures multiset(AppointmentsForDate(apts, year, month, day))[a] ==
            if a.date == DateKey(year, month, day) then multiset(apts)[a] else 0
  {
    FilterMembers(apts, DateIs(DateKey(year, month, day)), a);
    FilterMultiplicity(apts, DateIs(DateKey(year, month, day)), a);
  }

  /** `isDateBlocked(day)`: the day's key is one of the blocked dates, the same
      test the booking form makes on its date field. */
  function IsDayBlocked(year: int, month: nat, day: nat, blockedDates: seq<string>): (r: bool)
    ensures r <==> DateKey(year, month, day) in blockedDates
    ensures r <==> Booking.IsDateBlocked(DateKey(year, month, day), blockedDates)
  {
    DateKey(year, month, day) in blockedDates
  }

  /** Blocking or unblocking a calendar day (the toggle `handleToggleBlockDate`
      applies to its key) flips that day and leaves every other day of the
      calendar as it was. */
  lemma ToggleDayBlock(blockedDates: seq<string>, year: int, month: nat, day: nat,
                       year2: int, month2: nat, day2: nat)
    requires month < 12 && day < 100 && month2 < 12 && day2 < 100
    ensures IsDayBlocked(year, month, day, App.Toggle(blockedDates, DateKey(year, month, day))) <==>
            !IsDayBlocked(year, month, day, blockedDates)
    ensures (year2, month2, day2) != (year, month, day) ==>
              (IsDayBlocked(year2, month2, day2, App.Toggle(blockedDates, DateKey(year, month, day))) <==>
               IsDayBlocked(year2, month2, day2, blockedDates))
  {
    var key, key2 := DateKey(year, month, day), DateKey(year2, month2, day2);
    App.ToggleMembership(blockedDates, key, key2);
    if key2 == key {
      DateKeyInjective(year2, month2, day2, year, month, day);
    }
  }

  // ---------------------------------------------------------------------------
  // getDaysInMonth

  /** Days from 1 January 1970 to 1 January of year `y` (negative before). */
  function DayFromYear(y: int): int
  {
    365 * (y - 1970) + (y - 1969) / 4 - (y - 1901) / 100 + (y - 1601) / 400
  }

  predicate InLeapYear(y: int)
  {
    y % 4 == 0 && (y % 100 != 0 || y % 400 == 0)
  }

  function DaysInYear(y: int): int
  {
    if InLeapYear(y) then 366 else 365
  }

  /** Days in the months before month `m` (counted from 0) of a year. */
  function DayFromMonth(m: nat, leap: bool): nat
    requires m < 12
  {
    [0, 31, 59, 90, 120, 151, 181, 212, 243, 273, 304, 334][m] + (if leap && m >= 2 then 1 else 0)
  }

  /** MakeDay: the day number of `date` in month `month` of `year`, the month
      carrying into the year when it is outside 0..11 and the date counting on
      from the first of the month (0 is the day before the first). */
  function MakeDay(year: int, month: int, date: int): int
  {
    var ym := year + month / 12;
    var mn := month % 12;
    DayFromYear(ym) + DayFromMonth(mn, InLeapYear(ym)) + date - 1
  }

  /** The year `new Date(year, ...)` uses. */
  function CtorYear(year: int): int
  {
    if 0 <= year <= 99 then 1900 + year else year
  }

  /** WeekDay: 0 is Sunday; 1 January 1970 was a Thursday. */
  function WeekDay(day: int): (w: int)
    ensures 0 <= w < 7
  {
    (day + 4) % 7
  }

  /** `daysInMonth`: the date of `new Date(year, month + 1, 0)`, the day before
      the first of the next month, counted from the first of `month`. */
  function DaysInMonth(year: int, month: nat): int
    requires month < 12
  {
    var y := CtorYear(year);
    MakeDay(y, month + 1, 0) - MakeDay(y, month, 1) + 1
  }

  /** `startingDayOfWeek`: the weekday of `new Date(year, month, 1)`. */
  function StartingDayOfWeek(year: int, month: nat): (w: int)
    requires month < 12
    ensures 0 <= w < 7
  {
    WeekDay(MakeDay(CtorYear(year), month, 1))
  }

  /** The Gregorian length of a month. */
  function MonthLength(y: int, month: nat): int
    requires month < 12
  {
    if month == 1 then (if InLeapYear(y) then 29 else 28)
    else if month == 3 || month == 5 || month == 8 || month == 10 then 30
    else 31
  }

  lemma FloorStep4(a: int)
    ensures (a + 1) / 4 - a / 4 == if (a + 1) % 4 == 0 then 1 else 0
  {
  }

  lemma FloorStep100(a: int)
    ensures (a + 1) / 100 - a / 100 == if (a + 1) % 100 == 0 then 1 else 0
  {
  }

  lemma FloorStep400(a: int)
    ensures (a + 1) / 400 - a / 400 == if (a + 1) % 400 == 0 then 1 else 0
  {
  }

  /** A year has 365 days, 366 in a leap year. */
  lemma YearLength(y: int)
    ensures DayFromYear(y + 1) - DayFromYear(y) == DaysInYear(y)
  {
    DayFromYearStep(y);
    FloorStep4(y - 1969);
    FloorStep100(y - 1901);
    FloorStep400(y - 1601);
    ModShift4(y);
    ModShift100(y);
    ModShift400(y);
    if y % 400 == 0 {
      Multiple400(y);
    }
    if y % 100 == 0 {
      Multiple100(y);
    }
  }

  lemma DayFromYearStep(y: int)
    ensures DayFromYear(y + 1) - DayFromYear(y) ==
            365 + ((y - 1968) / 4 - (y - 1969) / 4) - ((y - 1900) / 100 - (y - 1901) / 100)
            + ((y - 1600) / 400 - (y - 1601) / 400)
  {
  }

  /** A multiple of 400 is a multiple of 100. */
  lemma Multiple400(y: int)
    requires y % 400 == 0
    ensures y % 100 == 0
  {
    assert y == 100 * (4 * (y / 400)) + 0;
  }

  /** A multiple of 100 is a multiple of 4. */
  lemma Multiple100(y: int)
    requires y % 100 == 0
    ensures y % 4 == 0
  {
    assert y == 4 * (25 * (y / 100)) + 0;
  }

  lemma ModShift4(y: int)
    ensures (y - 1968) % 4 == y % 4
  {
    assert y - 1968 == 4 * (y / 4 - 492) + y % 4;
  }

  lemma ModShift100(y: int)
    ensures (y - 1900) % 100 == y % 100
  {
    assert y - 1900 == 100 * (y / 100 - 19) + y % 100;
  }

  lemma ModShift400(y: int)
    ensures (y - 1600) % 400 == y % 400
  {
    assert y - 1600 == 400 * (y / 400 - 4) + y % 400;
  }

  /** The day before the first of the next month lies in the month: it is on or
      after the first, and before the first of the next. */
  lemma LastDayInMonth(year: int, month: nat)
    requires month < 12
    ensures var y := CtorYear(year);
            MakeDay(y, month, 1) <= MakeDay(y, month + 1, 0) < MakeDay(y, month + 1, 1)
  {
    MonthLengths(year, month);
  }

  /** `daysInMonth` is 31, 30 or 28, and 29 for February of a leap year (of the
      year the constructor uses). */
  lemma MonthLengths(year: int, month: nat)
    requires month < 12
    ensures DaysInMonth(year, month) == MonthLength(CtorYear(year), month)
    ensures 28 <= DaysInMonth(year, month) <= 31
  {
    var y := CtorYear(year);
    if month == 11 {
      DecemberLength(y);
    } else {
      InnerMonthLength(y, month);
    }
  }

  lemma DecemberLength(y: int)
    ensures MakeDay(y, 12, 0) - MakeDay(y, 11, 1) + 1 == 31
  {
    FirstOfMonth(y, 11, 1);
    YearLength(y);
    FirstOfMonth(y + 1, 0, 0);
    MonthCarry(y, 0);
  }

  lemma InnerMonthLength(y: int, month: nat)
    requires month < 11
    ensures MakeDay(y, month + 1, 0) - MakeDay(y, month, 1) + 1 == MonthLength(y, month)
  {
    FirstOfMonth(y, month, 1);
    FirstOfMonth(y, month + 1, 0);
    MonthStep(month, InLeapYear(y));
  }

  /** Within a year, MakeDay is the year's first day plus the months before. */
  lemma FirstOfMonth(y: int, m: nat, date: int)
    requires m < 12
    ensures MakeDay(y, m, date) == DayFromYear(y) + DayFromMonth(m, InLeapYear(y)) + date - 1
  {
  }

  /** Month 12 of a year is month 0 of the next. */
  lemma MonthCarry(y: int, date: int)
    ensures MakeDay(y, 12, date) == MakeDay(y + 1, 0, date)
  {
  }

  lemma MonthStep(m: nat, leap: bool)
    requires m < 11
    ensures DayFromMonth(m + 1, leap) - DayFromMonth(m, leap) ==
            if m == 1 then (if leap then 29 else 28)
            else if m == 3 || m == 5 || m == 8 || m == 10 then 30
            else 31
  {
  }

  lemma WeekDayShift(day: int, n: int)
    ensures WeekDay(day + n) == (WeekDay(day) + n) % 7
  {
    var q := (day + 4) / 7;
    assert day + 4 == 7 * q + WeekDay(day);
  }

  /** The next month starts on the weekday after this month's last. The year must
      not be one where the constructor's two-digit rule breaks the sequence (99 to
      100, and -1 to 0). */
  lemma NextMonthStart(year: int, month: nat)
    requires month < 11 || (year != 99 && year != -1)
    requires month < 12
    ensures var next := if month == 11 then StartingDayOfWeek(year + 1, 0) else StartingDayOfWeek(year, month + 1);
            next == (StartingDayOfWeek(year, month) + DaysInMonth(year, month)) % 7
  {
    var y := CtorYear(year);
    var first := MakeDay(y, month, 1);
    var n := DaysInMonth(year, month);
    NextFirst(y, month);
    WeekDayShift(first, n);
    if month == 11 {
      NewYearFirst(year);
    }
  }

  /** The first of the next month is the first of this month plus its length. */
  lemma NextFirst(y: int, month: nat)
    requires month < 12
    ensures MakeDay(y, month + 1, 1) == MakeDay(y, month, 1) + (MakeDay(y, month + 1, 0) - MakeDay(y, month, 1) + 1)
  {
  }

  /** Outside the two-digit years' edges, month 12 of a year is January of the next. */
  lemma NewYearFirst(year: int)
    requires year != 99 && year != -1
    ensures MakeDay(CtorYear(year + 1), 0, 1) == MakeDay(CtorYear(year), 12, 1)
  {
    assert CtorYear(year + 1) == CtorYear(year) + 1;
  }

  /** 1 January 1970 was a Thursday. */
  lemma EpochWeekday()
    ensures StartingDayOfWeek(1970, 0) == 4
  {
  }

  /** 1 October 2026 was a Thursday. */
  lemma October2026Weekday()
    ensures StartingDayOfWeek(2026, 9) == 4
  {
    October2026Day();
  }

  lemma October2026Day()
    ensures MakeDay(2026, 9, 1) == 20727
  {
    Year2026Day();
  }

  lemma Year2026Day()
    ensures DayFromYear(2026) == 20454
  {
  }

  /** 2024 and 2000 are leap years, 1900 is not; year 0 is, but the constructor
      reads it as 1900. */
  lemma LeapYearExamples()
    ensures InLeapYear(2024) && InLeapYear(2000) && !InLeapYear(1900)
    ensures InLeapYear(0) && CtorYear(0) == 1900
  {
  }

  /** February has 29 days in 2024. */
  lemma February2024()
    ensures DaysInMonth(2024, 1) == 29
  {
    MonthLengths(2024, 1);
  }

  /** February of year 0 gets 28 days although year 0 is a leap year. */
  lemma FebruaryYearZero()
    ensures DaysInMonth(0, 1) == 28
  {
    MonthLengths(0, 1);
  }

  // ---------------------------------------------------------------------------
  // Actions on an appointment

  /** Approve and reject are shown for pending appointments only. */
  predicate OffersApproveReject(a: Appointment)
  {
    a.status == "pending"
  }

  /** An appointment offered approval already holds its slot. */
  lemma OfferedHoldsSlot(a: Appointment)
    requires OffersApproveReject(a)
    ensures App.IsActive(a)
  {
    App.ActiveStatus(a);
  }

  /** Approving an appointment that was offered approval leaves the booked slots,
      provided every record with its id was offered too. */
  lemma ApproveOfferedKeepsSlots(apts: seq<Appointment>, id: Id)
    requires forall i :: 0 <= i < |apts| && apts[i].id == id ==> OffersApproveReject(apts[i])
    ensures App.BookedSlots(App.SetStatusById(apts, id, "approved")) == App.BookedSlots(apts)
  {
    forall i | 0 <= i < |apts| && apts[i].id == id ensures App.IsActive(apts[i]) {
      OfferedHoldsSlot(apts[i]);
    }
    App.ApproveKeepsBookedSlots(apts, id);
  }

  /** `rejectionReason.trim() || undefined`. */
  function RejectionArgument(reason: string): (r: Option<string>)
    ensures r.None? <==> IsBlank(reason)
    ensures r.Some? ==> r.value == Trim(reason)
  {
    var t := Trim(reason);
    if t == "" then None else Some(t)
  }

  // ---------------------------------------------------------------------------
  // Prices being edited

  /** The services after saving: a service whose id has a non-blank entry among
      `keys` gets that entry as its price; every other service is kept. */
  function SavedPrices(services: seq<Service>, temp: map<nat, string>, keys: set<nat>): (r: seq<Service>)
    ensures |r| == |services|
  {
    seq(|services|, i requires 0 <= i < |services| =>
          var s := services[i];
          if Saves(s, temp, keys) then s.(price := temp[s.id as nat]) else s)
  }

  /** The service has a non-blank entry among `keys`. */
  predicate Saves(s: Service, temp: map<nat, string>, keys: set<nat>)
  {
    s.id >= 0 && s.id as nat in keys && s.id as nat in temp && !IsBlank(temp[s.id as nat])
  }

  /** Saving keeps every id and name, sets the price of each service with a
      non-blank entry to that entry, and leaves every other service as it was. */
  lemma SavedPricesEffect(services: seq<Service>, temp: map<nat, string>, keys: set<nat>, i: nat)
    requires i < |services|
    ensures var r := SavedPrices(services, temp, keys);
            r[i].id == services[i].id && r[i].name == services[i].name &&
            (Saves(services[i], temp, keys) ==> r[i].price == temp[services[i].id as nat]) &&
            (!Saves(services[i], temp, keys) ==> r[i] == services[i])
  {
  }

  /** Only blank entries: saving changes no price. */
  lemma BlankEntriesChangeNothing(services: seq<Service>, temp: map<nat, string>)
    requires forall k :: k in temp ==> IsBlank(temp[k])
    ensures SavedPrices(services, temp, temp.Keys) == services
  {
  }

  lemma NothingSavedYet(services: seq<Service>, temp: map<nat, string>)
    ensures SavedPrices(services, temp, {}) == services
  {
  }

  /** Saving one more non-blank entry is one price update by that id. */
  lemma SaveOneMore(services: seq<Service>, temp: map<nat, string>, done: set<nat>, k: nat)
    requires k in temp && k !in done && !IsBlank(temp[k])
    ensures App.SetPrice(SavedPrices(services, temp, done), NumId(k), temp[k]) ==
            SavedPrices(services, temp, done + {k})
  {
  }

  /** Passing over a blank entry changes nothing. */
  lemma SkipBlank(services: seq<Service>, temp: map<nat, string>, done: set<nat>, k: nat)
    requires k in temp && IsBlank(temp[k])
    ensures SavedPrices(services, temp, done) == SavedPrices(services, temp, done + {k})
  {
  }

  /** The least element of a non-empty finite set of naturals. */
  ghost function LeastOf(s: set<nat>): (m: nat)
    requires s != {}
    ensures m in s && forall x :: x in s ==> m <= x
    decreases |s|
  {
    var x :| x in s;
    var rest := s - {x};
    if rest == {} then
      assert s == {x};
      x
    else
      var m := LeastOf(rest);
      assert forall y :: y in s ==> y == x || y in rest;
      if x < m then x else m
  }

  /** The least key of a non-empty set. */
  method Least(s: set<nat>) returns (m: nat)
    requires s != {}
    ensures m in s && forall x :: x in s ==> m <= x
  {
    ghost var least := LeastOf(s);
    m :| m in s && forall x :: x in s ==> m <= x;
  }

  /** The ids updated so far while saving: those of the non-blank entries already
      visited, in increasing order, each below every entry still to visit. */
  ghost predicate IssuedSoFar(issued: seq<nat>, temp: map<nat, string>, done: set<nat>, remaining: set<nat>)
  {
    (forall k :: k in issued <==> k in done && k in temp && !IsBlank(temp[k])) &&
    (forall i, j :: 0 <= i < j < |issued| ==> issued[i] < issued[j]) &&
    (forall i, r :: 0 <= i < |issued| && r in remaining ==> issued[i] < r)
  }

  /** Visiting the least remaining entry keeps the record of updates in order. */
  lemma IssuedStep(issued: seq<nat>, temp: map<nat, string>, done: set<nat>, remaining: set<nat>, k: nat)
    requires IssuedSoFar(issued, temp, done, remaining)
    requires k in remaining && k in temp && k !in done
    requires forall x :: x in remaining ==> k <= x
    ensures IssuedSoFar(if IsBlank(temp[k]) then issued else issued + [k], temp, done + {k}, remaining - {k})
  {
  }

  /** One entry of the `forEach`: a non-blank price goes to the session. */
  method SaveEntry(session: App.Session, ghost base: seq<Service>, temp: map<nat, string>,
                   ghost done: set<nat>, k: nat) returns (updated: bool)
    requires session.services == SavedPrices(base, temp, done)
    requires k in temp && k !in done
    modifies session`services
    ensures updated <==> !IsBlank(temp[k])
    ensures session.services == SavedPrices(base, temp, done + {k})
  {
    updated := Trim(temp[k]) != "";
    if updated {
      SaveOneMore(base, temp, done, k);
      session.UpdateServicePrice(NumId(k), temp[k]);
    } else {
      SkipBlank(base, temp, done, k);
    }
  }

  /** The `forEach` in `handleSavePrices`: visits the entries in ascending key
      order and updates the price of each non-blank one through the session. */
  method ApplyPrices(session: App.Session, temp: map<nat, string>) returns (issued: seq<nat>)
    modifies session`services
    ensures session.services == SavedPrices(old(session.services), temp, temp.Keys)
    ensures forall k :: k in issued <==> k in temp && !IsBlank(temp[k])
    ensures forall i, j :: 0 <= i < j < |issued| ==> issued[i] < issued[j]
  {
    ghost var base := session.services;
    var remaining := temp.Keys;
    ghost var done: set<nat> := {};
    NothingSavedYet(base, temp);
    issued := [];
    while remaining != {}
      invariant done <= temp.Keys && remaining == temp.Keys - done
      invariant session.services == SavedPrices(base, temp, done)
      invariant IssuedSoFar(issued, temp, done, remaining)
      decreases |remaining|
    {
      var k := Least(remaining);
      IssuedStep(issued, temp, done, remaining, k);
      var updated := SaveEntry(session, base, temp, done, k);
      if updated {
        issued := issued + [k];
      }
      remaining := remaining - {k};
      done := done + {k};
    }
  }

  class DashboardState {
    var selectedAppointment: Option<Appointment>
    var showRejectModal: bool
    var rejectionReason: string
    var editingPrices: bool
    var tempPrices: map<nat, string>

    constructor()
      ensures selectedAppointment.None? && !showRejectModal && rejectionReason == ""
      ensures !editingPrices && tempPrices == map[]
    {
      selectedAppointment := None;
      showRejectModal := false;
      rejectionReason := "";
      editingPrices := false;
      tempPrices := map[];
    }

    /** The reject button: remembers the appointment and opens the modal. */
    method OpenReject(a: Appointment)
      modifies this`selectedAppointment, this`showRejectModal
      ensures selectedAppointment == Some(a) && showRejectModal
    {
      selectedAppointment := Some(a);
      showRejectModal := true;
    }

    method SetRejectionReason(text: string)
      modifies this`rejectionReason
      ensures rejectionReason == text
    {
      rejectionReason := text;
    }

    /** The modal's cancel button. */
    method CloseReject()
      modifies this`selectedAppointment, this`showRejectModal, this`rejectionReason
      ensures selectedAppointment.None? && !showRejectModal && rejectionReason == ""
    {
      selectedAppointment := None;
      showRejectModal := false;
      rejectionReason := "";
    }

    /** `handleReject`: with an appointment selected, the call to the rejection
        handler (its id and the trimmed reason, or none when blank) and the modal
        reset; with none selected, nothing. */
    method Reject() returns (call: Option<(Id, Option<string>)>)
      modifies this`selectedAppointment, this`showRejectModal, this`rejectionReason
      ensures old(selectedAppointment).None? ==>
                call.None? && selectedAppointment.None? && showRejectModal == old(showRejectModal) &&
                rejectionReason == old(rejectionReason)
      ensures old(selectedAppointment).Some? ==>
                call == Some((old(selectedAppointment).value.id, RejectionArgument(old(rejectionReason)))) &&
                selectedAppointment.None? && !showRejectModal && rejectionReason == ""
    {
      if selectedAppointment.None? {
        return None;
      }
      call := Some((selectedAppointment.value.id, RejectionArgument(rejectionReason)));
      showRejectModal := false;
      selectedAppointment := None;
      rejectionReason := "";
    }

    method StartEditPrices()
      modifies this`editingPrices
      ensures editingPrices
    {
      editingPrices := true;
    }

    /** Typing into a service's price field. */
    method SetTempPrice(serviceId: nat, text: string)
      modifies this`tempPrices
      ensures tempPrices == old(tempPrices)[serviceId := text]
    {
      tempPrices := tempPrices[serviceId := text];
    }

    /** `handleCancelEditPrices`. */
    method CancelEditPrices()
      modifies this`editingPrices, this`tempPrices
      ensures !editingPrices && tempPrices == map[]
    {
      editingPrices := false;
      tempPrices := map[];
    }

    /** `handleSavePrices`: the entries in ascending key order, one price update
        for each whose trimmed text is non-empty, none for blank ones; then edit
        mode ends with no entries. `issued` lists the ids updated, in order. */
    method SavePrices(session: App.Session) returns (issued: seq<nat>)
      modifies this`editingPrices, this`tempPrices, session`services
      ensures session.services == SavedPrices(old(session.services), old(tempPrices), old(tempPrices).Keys)
      ensures forall k :: k in issued <==> k in old(tempPrices) && !IsBlank(old(tempPrices)[k])
      ensures forall i, j :: 0 <= i < j < |issued| ==> issued[i] < issued[j]
      ensures !editingPrices && tempPrices == map[]
    {
      issued := ApplyPrices(session, tempPrices);
      editingPrices := false;
      tempPrices := map[];
    }
  }
}
