/** Day numbers: the conversion of calendar dates to day numbers and back, with the
    divisions of the source, against the Gregorian calendar. */
module Julian {

  // C's integer division, which rounds toward zero.
  function Quot(a: int, b: int): int
    requires b > 0
  {
    if a >= 0 then a / b else -((-a) / b)
  }

  const INVALID := 0x7fff_ffff

  predicate Rejected(year: int, month: int, day: int) {
    month < 1 || month > 12 || day < 1 || day > 31 || year == 0
  }

  function DayNumber(year: int, month: int, day: int): int {
    if Rejected(year, month, day) then INVALID
    else
      var y := if year < 0 then year - 1 else year;
      var a := Quot(month - 14, 12);
      day - 32075
        + Quot(1461 * (y + 4800 + a), 4)
        + Quot(367 * (month - 2 - a * 12), 12)
        - Quot(3 * Quot(y + 4900 + a, 100), 4)
  }

  // The reverse conversion; every division yields a truncated exact quotient.
  function Civil(julian: int): (int, int, int) {
    var l := julian + 68569;
    var n := Quot(4 * l, 146097);
    var l1 := l - Quot(146097 * n + 3, 4);
    var i := Quot(4000 * (l1 + 1), 1461001);
    var l2 := l1 - Quot(1461 * i, 4) + 31;
    var j := Quot(80 * l2, 2447);
    var k := l2 - Quot(2447 * j, 80);
    var l3 := Quot(j, 11);
    (100 * (n - 49) + i + l3, j + 2 - 12 * l3, k)
  }

  // ---------- The Gregorian calendar ----------

  predicate Leap(year: int) {
    year % 4 == 0 && (year % 100 != 0 || year % 400 == 0)
  }

  function DaysInMonth(year: int, month: int): int {
    if month == 2 then (if Leap(year) then 29 else 28)
    else if month in {4, 6, 9, 11} then 30 else 31
  }

  predicate IsDate(year: int, month: int, day: int) {
    year >= 1 && 1 <= month <= 12 && 1 <= day <= DaysInMonth(year, month)
  }

  function NextDate(year: int, month: int, day: int): (int, int, int) {
    if day < DaysInMonth(year, month) then (year, month, day + 1)
    else if month < 12 then (year, month + 1, 1)
    else (year + 1, 1, 1)
  }

  // ---------- The forward formula, in years that start in March ----------

  // The number of the March year, and its month 1..12.
  function MarchYear(year: int, month: int): int {
    if month <= 2 then year + 4799 else year + 4800
  }

  function MarchMonth(month: int): int {
    if month <= 2 then month + 10 else month - 2
  }

  lemma Formula(year: int, month: int, day: int)
    requires year >= 1 && !Rejected(year, month, day)
    ensures var y, m := MarchYear(year, month), MarchMonth(month);
      DayNumber(year, month, day) == day - 32075 + 1461 * y / 4 + 367 * m / 12 - 3 * ((y + 100) / 100) / 4
  {
    assert Quot(month - 14, 12) == if month <= 2 then -1 else 0;
  }

  // First day of the century block n, counted from the origin of the reverse conversion.
  function Block(n: int): int {
    (146097 * n + 3) / 4
  }

  // With year 100 * c + r and day t of the March year, counted from 0.
  lemma InBlock(c: int, r: int)
    requires c >= 0 && 0 <= r < 100
    ensures 1461 * (100 * c + r) / 4 == 36525 * c + 365 * r + r / 4
    ensures (100 * c + r + 100) / 100 == c + 1
    ensures 36525 * (c + 1) - 3 * (c + 1) / 4 == Block(c + 1)
  {
  }

  // ---------- Round trip ----------

  // Length of the March year 100 * c + r, less one.
  predicate DayOfMarchYear(c: int, r: int, t: int) {
    0 <= t <= 365 && (t == 365 ==> r % 4 == 3 && (r == 99 ==> (c + 1) % 4 == 0))
  }

  lemma CenturyFound(c: int, r: int, t: int)
    requires c >= 0 && 0 <= r < 100 && DayOfMarchYear(c, r, t)
    ensures var l := Block(c + 1) + 365 * r + r / 4 + t; 4 * l / 146097 == c + 1
  {
  }

  lemma YearFound(r: int, t: int)
    requires 0 <= r < 100 && 0 <= t <= 365 && (t == 365 ==> r % 4 == 3)
    ensures 4000 * (365 * r + r / 4 + t + 1) / 1461001 == r
    ensures 1461 * r / 4 == 365 * r + r / 4
  {
  }

  function MarchMonthLength(m: int): int {
    if m == 12 then 29 else if m in {2, 4, 7, 9} then 30 else 31
  }

  lemma MonthFound(m: int, d: int)
    requires 1 <= m <= 12 && 1 <= d <= MarchMonthLength(m)
    ensures 80 * (367 * m / 12 + d) / 2447 == m
    ensures 2447 * m / 80 == 367 * m / 12
    ensures 31 <= 367 * m / 12 + d <= 396
  {
  }

  // The day within its March year.
  lemma DayOfYear(year: int, month: int, day: int)
    requires IsDate(year, month, day)
    ensures var y, m := MarchYear(year, month), MarchMonth(month);
      && 1 <= m <= 12 && day <= MarchMonthLength(m)
      && DayOfMarchYear(y / 100, y % 100, 367 * m / 12 + day - 31)
  {
    var y := MarchYear(year, month);
    if month == 2 && day == 29 {
      assert y == 100 * (y / 100) + y % 100 && year == y - 4799;
    }
  }

  // The reverse conversion from its quotients n, i and j.
  lemma CivilSteps(julian: int, n: int, i: int, j: int, l1: int, l2: int)
    requires julian + 68569 >= 0 && n >= 0 && i >= 0 && j >= 0 && l1 >= 0 && l2 >= 0
    requires 4 * (julian + 68569) / 146097 == n && l1 == julian + 68569 - (146097 * n + 3) / 4
    requires 4000 * (l1 + 1) / 1461001 == i && l2 == l1 - 1461 * i / 4 + 31
    requires 80 * l2 / 2447 == j
    ensures Civil(julian) == (100 * (n - 49) + i + j / 11, j + 2 - 12 * (j / 11), l2 - 2447 * j / 80)
  {
  }

  // The reverse conversion recovers the March year and its month.
  lemma PartsFound(c: int, r: int, m: int, d: int)
    requires c >= 0 && 0 <= r < 100 && 1 <= m <= 12 && 1 <= d <= MarchMonthLength(m)
    requires DayOfMarchYear(c, r, 367 * m / 12 + d - 31)
    ensures var l3 := m / 11;
      Civil(Block(c + 1) + 365 * r + r / 4 + (367 * m / 12 + d - 31) - 68569) ==
        (100 * c + r - 4800 + l3, m + 2 - 12 * l3, d)
  {
    hide Civil;
    var t := 367 * m / 12 + d - 31;
    CenturyFound(c, r, t);
    YearFound(r, t);
    MonthFound(m, d);
    CivilSteps(Block(c + 1) + 365 * r + r / 4 + t - 68569, c + 1, r, m, 365 * r + r / 4 + t, t + 31);
  }

  // March-based parts and day number.
  lemma DayNumberParts(year: int, month: int, day: int)
    requires year >= 1 && !Rejected(year, month, day)
    ensures var y, m := MarchYear(year, month), MarchMonth(month);
      DayNumber(year, month, day) ==
        Block(y / 100 + 1) + 365 * (y % 100) + y % 100 / 4 + (367 * m / 12 + day - 31) - 68569
  {
    hide DayNumber, Block;
    var y, m := MarchYear(year, month), MarchMonth(month);
    var c, r := y / 100, y % 100;
    Formula(year, month, day);
    InBlock(c, r);
    assert y == 100 * c + r;
  }

  // Main result: a date of the calendar survives the conversion to a day number and back.
  lemma RoundTrip(year: int, month: int, day: int)
    requires IsDate(year, month, day)
    ensures Civil(DayNumber(year, month, day)) == (year, month, day)
  {
    hide Civil, DayNumber, Block, DayOfMarchYear;
    var y, m := MarchYear(year, month), MarchMonth(month);
    DayOfYear(year, month, day);
    DayNumberParts(year, month, day);
    PartsFound(y / 100, y % 100, m, day);
  }

  // ---------- Successive dates ----------

  lemma NextIsDate(year: int, month: int, day: int)
    requires IsDate(year, month, day)
    ensures var (y, m, d) := NextDate(year, month, day); IsDate(y, m, d)
  {
  }

  // Across the end of February the March year changes.
  lemma FebruaryEnds(year: int)
    requires year >= 1
    ensures DayNumber(year, 3, 1) == DayNumber(year, 2, DaysInMonth(year, 2)) + 1
  {
    hide DayNumber;
    Formula(year, 3, 1);
    Formula(year, 2, DaysInMonth(year, 2));
    var y := year + 4799;
    YearStep(y);
    LeapShift(year);
  }

  // The year terms of the formula grow by the length of the March year y.
  lemma YearStep(y: int)
    requires y >= 0
    ensures 1461 * (y + 1) / 4 - 3 * ((y + 101) / 100) / 4 - (1461 * y / 4 - 3 * ((y + 100) / 100) / 4) ==
      if Leap(y + 1) then 366 else 365
  {
    FourYears(y);
    var n := y / 100 + 1;
    CenturyCount(y);
    if y % 100 == 99 {
      CenturyDrop(n);
      CenturyTurns(y);
    }
  }

  lemma CenturyCount(y: int)
    requires y >= 0
    ensures (y + 100) / 100 == y / 100 + 1
    ensures (y + 101) / 100 == if y % 100 == 99 then y / 100 + 2 else y / 100 + 1
    ensures (y + 1) % 100 == 0 <==> y % 100 == 99
  {
  }

  lemma FourYears(y: int)
    requires y >= 0
    ensures 1461 * (y + 1) / 4 - 1461 * y / 4 == if (y + 1) % 4 == 0 then 366 else 365
  {
  }

  lemma CenturyTurns(y: int)
    requires y >= 0 && y % 100 == 99
    ensures (y + 1) % 100 == 0 && (y + 1) % 4 == 0 && ((y + 1) % 400 == 0 <==> (y / 100 + 1) % 4 == 0)
  {
    var n := y / 100 + 1;
    assert y + 1 == 100 * n == 400 * (n / 4) + 100 * (n % 4);
  }

  lemma LeapShift(year: int)
    ensures Leap(year + 4800) <==> Leap(year)
  {
    assert year + 4800 == 4 * (year / 4 + 1200) + year % 4;
    assert year + 4800 == 100 * (year / 100 + 48) + year % 100;
    assert year + 4800 == 400 * (year / 400 + 12) + year % 400;
  }

  lemma CenturyDrop(n: int)
    requires n >= 0
    ensures 3 * (n + 1) / 4 - 3 * n / 4 == if (n + 1) % 4 == 1 then 0 else 1
  {
  }

  lemma OtherMonthEnds(year: int, month: int)
    requires year >= 1 && 1 <= month <= 12 && month != 2
    ensures var (y, m) := if month < 12 then (year, month + 1) else (year + 1, 1);
      DayNumber(y, m, 1) == DayNumber(year, month, DaysInMonth(year, month)) + 1
  {
    hide DayNumber;
    var (y, m) := if month < 12 then (year, month + 1) else (year + 1, 1);
    Formula(year, month, DaysInMonth(year, month));
    Formula(y, m, 1);
    assert MarchYear(y, m) == MarchYear(year, month) && MarchMonth(m) == MarchMonth(month) + 1;
  }

  // Consecutive dates have consecutive day numbers.
  lemma Consecutive(year: int, month: int, day: int)
    requires IsDate(year, month, day)
    ensures var (y, m, d) := NextDate(year, month, day); DayNumber(y, m, d) == DayNumber(year, month, day) + 1
  {
    hide DayNumber;
    if day < DaysInMonth(year, month) {
      DayNumberGrows(year, month, day);
      DayNumberGrows(year, month, day + 1);
    } else if month == 2 {
      FebruaryEnds(year);
    } else {
      OtherMonthEnds(year, month);
    }
  }

  predicate Before(y1: int, m1: int, d1: int, y2: int, m2: int, d2: int) {
    y1 < y2 || (y1 == y2 && (m1 < m2 || (m1 == m2 && d1 < d2)))
  }

  lemma {:induction false} LaterIsGreater(y1: int, m1: int, d1: int, y2: int, m2: int, d2: int)
    requires IsDate(y1, m1, d1) && IsDate(y2, m2, d2) && Before(y1, m1, d1, y2, m2, d2)
    ensures DayNumber(y1, m1, d1) < DayNumber(y2, m2, d2)
    decreases 372 * (y2 - y1) + 31 * (m2 - m1) + (d2 - d1)
  {
    hide DayNumber;
    Consecutive(y1, m1, d1);
    NextIsDate(y1, m1, d1);
    var (y, m, d) := NextDate(y1, m1, d1);
    if (y, m, d) != (y2, m2, d2) {
      LaterIsGreater(y, m, d, y2, m2, d2);
    }
  }

  // Main result: comparing day numbers compares dates.
  lemma OrderIsDateOrder(y1: int, m1: int, d1: int, y2: int, m2: int, d2: int)
    requires IsDate(y1, m1, d1) && IsDate(y2, m2, d2)
    ensures DayNumber(y1, m1, d1) < DayNumber(y2, m2, d2) <==> Before(y1, m1, d1, y2, m2, d2)
    ensures DayNumber(y1, m1, d1) == DayNumber(y2, m2, d2) <==> (y1, m1, d1) == (y2, m2, d2)
  {
    hide DayNumber;
    if Before(y1, m1, d1, y2, m2, d2) {
      LaterIsGreater(y1, m1, d1, y2, m2, d2);
    } else if Before(y2, m2, d2, y1, m1, d1) {
      LaterIsGreater(y2, m2, d2, y1, m1, d1);
    }
  }

  const FIRST := 1721426

  // Every day number from 1 January of year 1 on belongs to a date, which the reverse
  // conversion finds.
  lemma {:induction false} EveryDayHasADate(j: int)
    requires j >= FIRST
    ensures var (y, m, d) := Civil(j); IsDate(y, m, d) && DayNumber(y, m, d) == j
    decreases j
  {
    hide Civil;
    if j == FIRST {
      assert DayNumber(1, 1, 1) == FIRST;
      RoundTrip(1, 1, 1);
    } else {
      EveryDayHasADate(j - 1);
      var (y, m, d) := Civil(j - 1);
      Consecutive(y, m, d);
      NextIsDate(y, m, d);
      var (y', m', d') := NextDate(y, m, d);
      RoundTrip(y', m', d');
    }
  }

  // The source accepts days 29 to 31 of any month; exactly those of the calendar come back.
  lemma AcceptedRoundTripsIffDate(year: int, month: int, day: int)
    requires year >= 1 && !Rejected(year, month, day)
    ensures Civil(DayNumber(year, month, day)) == (year, month, day) <==> day <= DaysInMonth(year, month)
  {
    hide Civil, DayNumber;
    if day <= DaysInMonth(year, month) {
      RoundTrip(year, month, day);
    } else {
      DayNumberGrows(year, month, day);
      EveryDayHasADate(DayNumber(year, month, day));
    }
  }

  lemma DayNumberGrows(year: int, month: int, day: int)
    requires year >= 1 && !Rejected(year, month, day)
    ensures DayNumber(year, month, day) == DayNumber(year, month, 1) + day - 1 && DayNumber(year, month, 1) >= FIRST
  {
    hide DayNumber;
    Formula(year, month, day);
    Formula(year, month, 1);
  }

  // The value that marks an invalid date is also the number of one real date.
  lemma InvalidMark(year: int, month: int, day: int)
    requires year >= 1
    ensures DayNumber(year, month, day) == INVALID <==>
      Rejected(year, month, day) || (year, month, day) == (5874898, 6, 3)
  {
    hide Civil, DayNumber;
    assert DayNumber(5874898, 6, 3) == INVALID by {
      Formula(5874898, 6, 3);
    }
    if Rejected(year, month, day) {
      RejectedIsInvalid(year, month, day);
    } else if day <= DaysInMonth(year, month) {
      OrderIsDateOrder(year, month, day, 5874898, 6, 3);
    } else {
      // Counted on into the next month, the day is one of its first three, and not of June.
      var last := DaysInMonth(year, month);
      DayNumberGrows(year, month, day);
      DayNumberGrows(year, month, last);
      Consecutive(year, month, last);
      var d := day - last;
      DayNumberGrows(year, month + 1, d);
      OrderIsDateOrder(year, month + 1, d, 5874898, 6, 3);
    }
  }

  lemma RejectedIsInvalid(year: int, month: int, day: int)
    requires Rejected(year, month, day)
    ensures DayNumber(year, month, day) == INVALID
  {
  }

  // ---------- The casts of the reverse conversion ----------

  predicate FitsInt(n: int) {
    -0x8000_0000 <= n < 0x8000_0000
  }

  // Everything the reverse conversion casts to int is one.
  predicate CastsFit(julian: int) {
    var l := julian + 68569;
    var n := Quot(4 * l, 146097);
    var l1 := l - Quot(146097 * n + 3, 4);
    var i := Quot(4000 * (l1 + 1), 1461001);
    var l2 := l1 - Quot(1461 * i, 4) + 31;
    var j := Quot(80 * l2, 2447);
    var (year, month, day) := Civil(julian);
    && FitsInt(n) && FitsInt(Quot(146097 * n + 3, 4)) && FitsInt(i) && FitsInt(Quot(1461 * i, 4))
    && FitsInt(j) && FitsInt(Quot(2447 * j, 80)) && FitsInt(Quot(j, 11))
    && FitsInt(year) && FitsInt(month) && FitsInt(day)
  }

  // The last day of a block of 100 years; the next block starts beyond an int.
  const LAST_CAST := 2147447758

  // The conversion casts nothing out of range up to that day and never after it. The number
  // that marks an invalid date is beyond.
  lemma CastsFitIff(julian: int)
    requires julian >= FIRST
    ensures CastsFit(julian) <==> julian <= LAST_CAST
    ensures LAST_CAST < INVALID
  {
    hide Quot;
    var l := julian + 68569;
    var n := Quot(4 * l, 146097);
    BlockHolds(l, n);
    SmallParts(l - Quot(146097 * n + 3, 4), n);
    BlockStart(n);
  }

  lemma BlockStart(n: int)
    requires n >= 0
    ensures FitsInt(Quot(146097 * n + 3, 4)) <==> n <= 58796
  {
  }

  lemma BlockHolds(l: int, n: int)
    requires l >= 0 && n == Quot(4 * l, 146097)
    ensures n >= 0 && 0 <= l - Quot(146097 * n + 3, 4) < 36525
    ensures l <= LAST_CAST + 68569 <==> n <= 58796
  {
  }

  // Inside a block all numbers are small.
  lemma SmallParts(l1: int, n: int)
    requires 0 <= l1 < 36525
    ensures var i := Quot(4000 * (l1 + 1), 1461001);
      var l2 := l1 - Quot(1461 * i, 4) + 31;
      var j := Quot(80 * l2, 2447);
      && FitsInt(i) && FitsInt(Quot(1461 * i, 4)) && FitsInt(j) && FitsInt(Quot(2447 * j, 80)) && FitsInt(Quot(j, 11))
      && FitsInt(j + 2 - 12 * Quot(j, 11)) && FitsInt(l2 - Quot(2447 * j, 80))
      && (0 <= n <= 58796 ==> FitsInt(n) && FitsInt(100 * (n - 49) + i + Quot(j, 11)))
  {
    var i := 4000 * (l1 + 1) / 1461001;
    assert 0 <= i <= 100;
    var l2 := l1 - 1461 * i / 4 + 31;
    assert -100_000 <= l2 <= 100_000;
    var j := Quot(80 * l2, 2447);
    assert -10_000 <= j <= 10_000;
  }

  // 0 is Sunday.
  function DayOfWeek(julian: int): int {
    (julian + 1) % 7
  }

  // Weekdays follow each other along the calendar, and 1 January 2000 is a Saturday.
  lemma Weekdays(year: int, month: int, day: int)
    requires IsDate(year, month, day)
    ensures var (y, m, d) := NextDate(year, month, day);
      DayOfWeek(DayNumber(y, m, d)) == (DayOfWeek(DayNumber(year, month, day)) + 1) % 7
    ensures DayOfWeek(DayNumber(2000, 1, 1)) == 6
  {
    hide DayNumber;
    Consecutive(year, month, day);
    Formula(2000, 1, 1);
  }

  // ---------- The class ----------

  class Date {
    var julian: int

    constructor (year: int, month: int, day: int)
      ensures julian == DayNumber(year, month, day)
    {
      new;
      ToJulian(year, month, day);
    }

    method ToJulian(year: int, month: int, day: int)
      modifies this
      ensures julian == DayNumber(year, month, day)
    {
      julian := INVALID;
      if month < 1 || month > 12 || day < 1 || day > 31 || year == 0 {
        return;
      }
      var y := year;
      if year < 0 {
        y := y - 1;
      }
      julian := day - 32075
        + Quot(1461 * (y + 4800 + Quot(month - 14, 12)), 4)
        + Quot(367 * (month - 2 - Quot(month - 14, 12) * 12), 12)
        - Quot(3 * Quot(y + 4900 + Quot(month - 14, 12), 100), 4);
    }

    // A date stored and read back is the date that was stored.
    method FromJulian() returns (year: int, month: int, day: int)
      ensures (year, month, day) == Civil(julian)
      ensures julian >= FIRST ==> IsDate(year, month, day) && DayNumber(year, month, day) == julian
    {
      hide Quot;
      var l := julian + 68569;
      var n := Quot(4 * l, 146097);
      l := l - Quot(146097 * n + 3, 4);
      var i := Quot(4000 * (l + 1), 1461001);
      l := l - Quot(1461 * i, 4) + 31;
      var j := Quot(80 * l, 2447);
      var k := l - Quot(2447 * j, 80);
      l := Quot(j, 11);
      j := j + 2 - 12 * l;
      i := 100 * (n - 49) + i + l;
      year, month, day := i, j, k;
      if julian >= FIRST {
        EveryDayHasADate(julian);
      }
    }

    // ++ moves to the next date of the calendar.
    method Increment()
      modifies this
      ensures julian == old(julian) + 1
      ensures old(julian) >= FIRST ==> Civil(julian) == (var (y, m, d) := Civil(old(julian)); NextDate(y, m, d))
    {
      if julian >= FIRST {
        EveryDayHasADate(julian);
        var (y, m, d) := Civil(julian);
        Consecutive(y, m, d);
        NextIsDate(y, m, d);
        var (y', m', d') := NextDate(y, m, d);
        RoundTrip(y', m', d');
      }
      julian := julian + 1;
    }
  }
}
