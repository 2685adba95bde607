/**
 * TradeKey: a trade date and two identifying strings, with its raw span
 * encoding (Write / SpanSize), its equality comparer and its string form.
 */
module TradeKeys {
  import opened Bytes
  import opened Texts
  import opened Wrappers

  /** DateOnly.MaxValue.DayNumber (9999-12-31); day 0 is 0001-01-01. */
  const MaxDayNumber: int := 3652058

  /** DateOnly, represented by its DayNumber. */
  type DayNumber = d: int | 0 <= d <= MaxDayNumber

  datatype TradeKey = TradeKey(tradeDate: DayNumber, exchangeLinkId: Text, exchangeTradeId: Text)

  /** The number of bytes Write needs: a 4-byte day number and both ids. */
  function SpanSize(key: TradeKey): nat
  {
    4 + |key.exchangeLinkId| + |key.exchangeTradeId|
  }

  /** The bytes Write leaves at the front of the span: day number, link id, trade id. */
  function RawKey(key: TradeKey): (bs: seq<byte>)
  {
    Int32Bytes(key.tradeDate) + key.exchangeLinkId + key.exchangeTradeId
  }

  /** The raw form fills exactly SpanSize bytes, laid out day number, link id, trade id. */
  lemma RawKeyLayout(key: TradeKey)
    ensures |RawKey(key)| == SpanSize(key)
    ensures Int32FromBytes(RawKey(key)[..4]) == key.tradeDate
    ensures RawKey(key)[4..4 + |key.exchangeLinkId|] == key.exchangeLinkId
    ensures RawKey(key)[4 + |key.exchangeLinkId|..] == key.exchangeTradeId
  {
    assert RawKey(key)[..4] == Int32Bytes(key.tradeDate);
    Int32RoundTrip(key.tradeDate);
  }

  datatype WriteError = SpanTooSmall

  /** BitConverter.TryWriteBytes(span, value) for a span of at least four bytes. */
  method WriteInt32(span: array<byte>, value: int32)
    requires span.Length >= 4
    modifies span
    ensures span[..4] == Int32Bytes(value)
    ensures span[4..] == old(span[4..])
  {
    var bs := Int32Bytes(value);
    span[0], span[1], span[2], span[3] := bs[0], bs[1], bs[2], bs[3];
  }

  /** The three writes of WriteFields, as successive snapshots of the buffer, leave the raw form. */
  lemma AssembleRawKey(key: TradeKey, s0: seq<byte>, s1: seq<byte>, s2: seq<byte>, s3: seq<byte>)
    requires |s0| == |s1| == |s2| == |s3| >= SpanSize(key)
    requires s1[..4] == Int32Bytes(key.tradeDate) && s1[4..] == s0[4..]
    requires var a := 4 + |key.exchangeLinkId|;
             s2[..4] == s1[..4] && s2[4..a] == key.exchangeLinkId && s2[a..] == s1[a..]
    requires var a := 4 + |key.exchangeLinkId|;
             s3[..a] == s2[..a] && s3[a..SpanSize(key)] == key.exchangeTradeId && s3[SpanSize(key)..] == s2[SpanSize(key)..]
    ensures s3[..SpanSize(key)] == RawKey(key)
    ensures s3[SpanSize(key)..] == s0[SpanSize(key)..]
  {
    var a, n := 4 + |key.exchangeLinkId|, SpanSize(key);
    assert s3[..4] == s2[..a][..4];
    assert s3[4..a] == s2[..a][4..];
    assert s3[..n] == s3[..4] + s3[4..a] + s3[a..n];
    assert s2[n..] == s1[a..][n - a..];
    assert s1[n..] == s0[4..][n - 4..];
  }

  /** Writes day number, link id and trade id at the start of `span`; returns the offset after the link id. */
  method WriteFields(key: TradeKey, span: array<byte>) returns (afterLink: nat)
    requires span.Length >= SpanSize(key)
    modifies span
    ensures afterLink == 4 + |key.exchangeLinkId|
    ensures span[..SpanSize(key)] == RawKey(key)
    ensures span[SpanSize(key)..] == old(span[SpanSize(key)..])
  {
    ghost var s0 := span[..];
    WriteInt32(span, key.tradeDate);
    ghost var s1 := span[..];
    var bytesCount := 4;
    var linkBytes := GetBytes(key.exchangeLinkId, span, bytesCount);
    bytesCount := bytesCount + linkBytes.value;
    afterLink := bytesCount;
    ghost var s2 := span[..];
    var tradeBytes := GetBytes(key.exchangeTradeId, span, bytesCount);
    AssembleRawKey(key, s0, s1, s2, span[..]);
  }

  /**
   * TradeKey.Write as written: a span shorter than SpanSize is refused before any
   * byte is written; otherwise the raw form fills its first SpanSize bytes. The
   * count it returns adds the link id's byte count twice.
   */
  method Write(key: TradeKey, span: array<byte>) returns (r: Result<int, WriteError>)
    modifies span
    ensures span.Length < SpanSize(key) ==> r == Err(SpanTooSmall) && span[..] == old(span[..])
    ensures span.Length >= SpanSize(key) ==>
              && r == Ok(4 + 2 * |key.exchangeLinkId|)
              && span[..SpanSize(key)] == RawKey(key)
              && span[SpanSize(key)..] == old(span[SpanSize(key)..])
  {
    if span.Length < SpanSize(key) {
      return Err(SpanTooSmall);
    }
    var bytesCount := WriteFields(key, span);
    bytesCount := bytesCount + |key.exchangeLinkId|;
    r := Ok(bytesCount);
  }

  /** Write with the count it evidently means to return: the number of bytes written, SpanSize. */
  method WriteCorrected(key: TradeKey, span: array<byte>) returns (r: Result<int, WriteError>)
    modifies span
    ensures span.Length < SpanSize(key) ==> r == Err(SpanTooSmall) && span[..] == old(span[..])
    ensures span.Length >= SpanSize(key) ==>
              && r == Ok(|RawKey(key)|)
              && span[..SpanSize(key)] == RawKey(key)
              && span[SpanSize(key)..] == old(span[SpanSize(key)..])
  {
    if span.Length < SpanSize(key) {
      return Err(SpanTooSmall);
    }
    var bytesCount := WriteFields(key, span);
    bytesCount := bytesCount + |key.exchangeTradeId|;
    r := Ok(bytesCount);
  }

  /**
   * Write's count is not the number of bytes it writes: for link id "a" and
   * trade id "bc" it writes seven bytes and reports six.
   */
  lemma WriteCountMismatch()
    ensures var key := TradeKey(0, [97], [98, 99]);
            4 + 2 * |key.exchangeLinkId| == 6 && |RawKey(key)| == 7 && SpanSize(key) == 7
  {
  }

  /** Write's count equals the number of bytes written exactly when both ids have the same length. */
  lemma WriteCountExactIff(key: TradeKey)
    ensures 4 + 2 * |key.exchangeLinkId| == |RawKey(key)| <==> |key.exchangeLinkId| == |key.exchangeTradeId|
  {
  }

  /** The raw form is not injective: moving bytes between the two ids leaves it unchanged. */
  lemma RawKeyCollision(date: DayNumber)
    ensures TradeKey(date, [97, 98], [99]) != TradeKey(date, [97], [98, 99])
    ensures RawKey(TradeKey(date, [97, 98], [99])) == RawKey(TradeKey(date, [97], [98, 99]))
  {
    assert [97, 98] + [99] == [97] + [98, 99];
  }

  /** TradeKeyEqualityComparer.Equals: date (by day number), link id and trade id all equal. */
  predicate KeysEqual(x: TradeKey, y: TradeKey)
  {
    x.tradeDate == y.tradeDate && x.exchangeLinkId == y.exchangeLinkId && x.exchangeTradeId == y.exchangeTradeId
  }

  /**
   * TradeKeyEqualityComparer.GetHashCode: HashCode.Combine over the three fields.
   * HashCode.Combine is seeded per process, so it is a parameter.
   */
  function KeyHash(key: TradeKey, combine: (DayNumber, Text, Text) -> int): int
  {
    combine(key.tradeDate, key.exchangeLinkId, key.exchangeTradeId)
  }

  /** The comparer's equality is exactly value equality of keys. */
  lemma KeysEqualIsEquality(x: TradeKey, y: TradeKey)
    ensures KeysEqual(x, y) <==> x == y
  {
  }

  /** Keys the comparer calls equal have equal hashes, whatever the combining function. */
  lemma KeyHashRespectsEquality(x: TradeKey, y: TradeKey, combine: (DayNumber, Text, Text) -> int)
    requires KeysEqual(x, y)
    ensures KeyHash(x, combine) == KeyHash(y, combine)
  {
  }

  // ---- ToString: "{TradeDate:yyyy-MM-dd}-{ExchangeLinkId}-{ExchangeTradeId}" ----

  datatype CivilDate = CivilDate(year: nat, month: nat, day: nat)

  /** The days of a year before the first of `month` (13 standing for the year's end). */
  function DaysBeforeMonth(month: nat, leap: bool): nat
    requires 1 <= month <= 13
  {
    var common := match month
      case 1 => 0 case 2 => 31 case 3 => 59 case 4 => 90 case 5 => 120 case 6 => 151 case 7 => 181
      case 8 => 212 case 9 => 243 case 10 => 273 case 11 => 304 case 12 => 334 case _ => 365;
    if leap && month > 2 then common + 1 else common
  }

  /** The first month m in [from, 12] that has not ended by day `dayOfYear` (12 if none). */
  function MonthOf(leap: bool, dayOfYear: nat, from: nat): (m: nat)
    requires 1 <= from <= 12 && DaysBeforeMonth(from, leap) <= dayOfYear
    ensures from <= m <= 12 && DaysBeforeMonth(m, leap) <= dayOfYear
    ensures m < 12 ==> dayOfYear < DaysBeforeMonth(m + 1, leap)
    decreases 12 - from
  {
    if from == 12 || dayOfYear < DaysBeforeMonth(from + 1, leap) then from
    else MonthOf(leap, dayOfYear, from + 1)
  }

  /**
   * How many whole 400-, 100-, 4- and 1-year cycles precede a day number, and
   * the day of the year it falls on (0-based).
   */
  datatype Cycles = Cycles(n400: nat, n100: nat, n4: nat, n1: nat, dayOfYear: nat)

  function CyclesOf(dayNumber: DayNumber): (c: Cycles)
    ensures c.n100 <= 3 && c.n1 <= 3 && c.dayOfYear <= 365
  {
    var r400 := dayNumber % 146097;
    var n100 := if r400 / 36524 == 4 then 3 else r400 / 36524;
    var r100 := r400 - n100 * 36524;
    var r4 := r100 % 1461;
    var n1 := if r4 / 365 == 4 then 3 else r4 / 365;
    Cycles(dayNumber / 146097, n100, r100 / 1461, n1, r4 - n1 * 365)
  }

  /** The year is a leap year: the last of a 4-year cycle, unless a century that is not the fourth. */
  predicate IsLeap(c: Cycles)
  {
    c.n1 == 3 && (c.n4 != 24 || c.n100 == 3)
  }

  /** The cycles add back up to the day number, and only a leap year reaches its 366th day. */
  lemma CyclesOfSum(dayNumber: DayNumber)
    ensures var c := CyclesOf(dayNumber);
            && c.n4 <= 24
            && dayNumber == 146097 * c.n400 + 36524 * c.n100 + 1461 * c.n4 + 365 * c.n1 + c.dayOfYear
            && (!IsLeap(c) ==> c.dayOfYear <= 364)
  {
  }

  /** The Gregorian rule: every fourth year, except centuries not divisible by 400. */
  predicate LeapYear(year: int)
  {
    year % 4 == 0 && (year % 100 != 0 || year % 400 == 0)
  }

  /** The length of a month in a given year. */
  function DaysInMonth(year: nat, month: nat): (n: nat)
    requires 1 <= month <= 12
    ensures 28 <= n <= 31
  {
    DaysBeforeMonth(month + 1, LeapYear(year)) - DaysBeforeMonth(month, LeapYear(year))
  }

  /** DateOnly(year, month, day).DayNumber: whole years since 0001, then the days of this year. */
  function DayNumberOf(d: CivilDate): int
    requires d.year >= 1 && 1 <= d.month <= 12
  {
    var y := d.year - 1;
    y * 365 + y / 4 - y / 100 + y / 400 + DaysBeforeMonth(d.month, LeapYear(d.year)) + d.day - 1
  }

  /** The year the cycles count up to is a multiple of 4 exactly when it closes a 4-year cycle. */
  lemma CyclesYearMod4(c: Cycles)
    requires c.n1 <= 3
    ensures var year := 400 * c.n400 + 100 * c.n100 + 4 * c.n4 + c.n1 + 1;
            year % 4 == 0 <==> c.n1 == 3
  {
    var year := 400 * c.n400 + 100 * c.n100 + 4 * c.n4 + c.n1 + 1;
    var q := 100 * c.n400 + 25 * c.n100 + c.n4;
    if c.n1 == 3 {
      assert year == 4 * (q + 1);
    } else {
      assert year == 4 * q + (c.n1 + 1) && 1 <= c.n1 + 1 < 4;
    }
  }

  /** Such a year is a multiple of 100 exactly when it also closes a century. */
  lemma CyclesYearMod100(c: Cycles)
    requires c.n4 <= 24 && c.n1 == 3
    ensures var year := 400 * c.n400 + 100 * c.n100 + 4 * c.n4 + c.n1 + 1;
            year % 100 == 0 <==> c.n4 == 24
  {
    var q := 4 * c.n400 + c.n100;
    assert 400 * c.n400 + 100 * c.n100 + 4 * c.n4 + c.n1 + 1 == 100 * q + (4 * c.n4 + 4);
  }

  /** Such a year is a multiple of 400 exactly when it also closes a 400-year cycle. */
  lemma CyclesYearMod400(c: Cycles)
    requires c.n100 <= 3 && c.n4 == 24 && c.n1 == 3
    ensures var year := 400 * c.n400 + 100 * c.n100 + 4 * c.n4 + c.n1 + 1;
            year % 400 == 0 <==> c.n100 == 3
  {
    assert 400 * c.n400 + 100 * c.n100 + 4 * c.n4 + c.n1 + 1 == 400 * c.n400 + (100 * c.n100 + 100);
  }

  /** The cycle counts decide leap years as the Gregorian rule does on the year they count up to. */
  lemma CyclesLeapYear(c: Cycles)
    requires c.n100 <= 3 && c.n4 <= 24 && c.n1 <= 3
    ensures IsLeap(c) <==> LeapYear(400 * c.n400 + 100 * c.n100 + 4 * c.n4 + c.n1 + 1)
  {
    CyclesYearMod4(c);
    if c.n1 == 3 {
      CyclesYearMod100(c);
      if c.n4 == 24 {
        CyclesYearMod400(c);
      }
    }
  }

  /** The days of the years the cycles count: .NET's year arithmetic undoes the cycle split. */
  lemma CyclesYearDays(c: Cycles)
    requires c.n100 <= 3 && c.n4 <= 24 && c.n1 <= 3
    ensures var y := 400 * c.n400 + 100 * c.n100 + 4 * c.n4 + c.n1;
            y * 365 + y / 4 - y / 100 + y / 400 == 146097 * c.n400 + 36524 * c.n100 + 1461 * c.n4 + 365 * c.n1
  {
    var y := 400 * c.n400 + 100 * c.n100 + 4 * c.n4 + c.n1;
    assert y / 4 == 100 * c.n400 + 25 * c.n100 + c.n4;
    assert y / 100 == 4 * c.n400 + c.n100;
    assert y / 400 == c.n400;
  }

  /** The date the cycles count up to: the year they complete, then the month and day of dayOfYear. */
  function CivilOfCycles(c: Cycles): (d: CivilDate)
    ensures 1 <= d.month <= 12 && d.year >= 1 && d.day >= 1
  {
    var m := MonthOf(IsLeap(c), c.dayOfYear, 1);
    CivilDate(400 * c.n400 + 100 * c.n100 + 4 * c.n4 + c.n1 + 1, m, c.dayOfYear - DaysBeforeMonth(m, IsLeap(c)) + 1)
  }

  /** The proleptic Gregorian year, month and day of a day number. */
  function CivilFromDayNumber(dayNumber: DayNumber): (d: CivilDate)
    ensures 1 <= d.month <= 12 && d.year >= 1 && d.day >= 1
  {
    CivilOfCycles(CyclesOf(dayNumber))
  }

  /** The month MonthOf picks contains the day of the year, also when it is December. */
  lemma MonthOfContains(leap: bool, dayOfYear: nat)
    requires dayOfYear <= (if leap then 365 else 364)
    ensures var m := MonthOf(leap, dayOfYear, 1);
            dayOfYear < DaysBeforeMonth(m + 1, leap)
  {
  }

  /** A day of the year that falls in month m is a day of that month. */
  lemma DayOfMonthFits(year: nat, leap: bool, dayOfYear: nat, m: nat)
    requires LeapYear(year) == leap && 1 <= m <= 12
    requires DaysBeforeMonth(m, leap) <= dayOfYear < DaysBeforeMonth(m + 1, leap)
    ensures dayOfYear - DaysBeforeMonth(m, leap) + 1 <= DaysInMonth(year, m)
  {
  }

  /** Cycles within their bounds give a real date: its day fits its month in its year. */
  lemma CivilOfCyclesFits(c: Cycles)
    requires c.n100 <= 3 && c.n4 <= 24 && c.n1 <= 3 && c.dayOfYear <= (if IsLeap(c) then 365 else 364)
    ensures var d := CivilOfCycles(c);
            d.day <= DaysInMonth(d.year, d.month)
  {
    CyclesLeapYear(c);
    MonthOfContains(IsLeap(c), c.dayOfYear);
    var d := CivilOfCycles(c);
    DayOfMonthFits(d.year, IsLeap(c), c.dayOfYear, d.month);
  }

  /** The day number of the date the cycles give is the number of days they count. */
  lemma CivilOfCyclesDayNumber(c: Cycles)
    requires c.n100 <= 3 && c.n4 <= 24 && c.n1 <= 3
    ensures DayNumberOf(CivilOfCycles(c)) == 146097 * c.n400 + 36524 * c.n100 + 1461 * c.n4 + 365 * c.n1 + c.dayOfYear
  {
    CyclesLeapYear(c);
    CyclesYearDays(c);
    var d := CivilOfCycles(c);
    assert DaysBeforeMonth(d.month, LeapYear(d.year)) + d.day - 1 == c.dayOfYear;
  }

  /**
   * The computed date is a real date (its day fits its month in its year) and
   * DateOnly's constructor maps it back to the day number it came from.
   */
  lemma CivilFromDayNumberRoundTrip(dayNumber: DayNumber)
    ensures var d := CivilFromDayNumber(dayNumber);
            d.day <= DaysInMonth(d.year, d.month) && DayNumberOf(d) == dayNumber
  {
    CyclesOfSum(dayNumber);
    CivilOfCyclesFits(CyclesOf(dayNumber));
    CivilOfCyclesDayNumber(CyclesOf(dayNumber));
  }

  /** Distinct day numbers are distinct dates. */
  lemma CivilFromDayNumberInjective(x: DayNumber, y: DayNumber)
    requires x != y
    ensures CivilFromDayNumber(x) != CivilFromDayNumber(y)
  {
    CivilFromDayNumberRoundTrip(x);
    CivilFromDayNumberRoundTrip(y);
  }

  /** The day number of 2021-01-01. */
  const Jan1st2021: DayNumber := 737790

  lemma Jan1st2021IsCivil()
    ensures CivilFromDayNumber(Jan1st2021) == CivilDate(2021, 1, 1)
    ensures DayNumberOf(CivilDate(2021, 1, 1)) == Jan1st2021
  {
    assert CyclesOf(737790) == Cycles(5, 0, 5, 0, 0);
    assert MonthOf(false, 0, 1) == 1;
  }

  /** The "yyyy-MM-dd" format of a date. */
  function DateText(dayNumber: DayNumber): Text
  {
    var d := CivilFromDayNumber(dayNumber);
    ZeroPadded(d.year, 4) + [Hyphen] + ZeroPadded(d.month, 2) + [Hyphen] + ZeroPadded(d.day, 2)
  }

  /** TradeKey.ToString. */
  function ToString(key: TradeKey): Text
  {
    DateText(key.tradeDate) + [Hyphen] + key.exchangeLinkId + [Hyphen] + key.exchangeTradeId
  }

  /** Joining with hyphens, "a-b" then "c" reads the same as "a" then "b-c". */
  lemma HyphenShift(prefix: Text)
    ensures prefix + [97, Hyphen, 98] + [Hyphen] + [99] == prefix + [97] + [Hyphen] + [98, Hyphen, 99]
  {
  }

  /** The string form is not injective: a hyphen inside an id can move between the two ids. */
  lemma ToStringCollision(date: DayNumber)
    ensures TradeKey(date, [97, Hyphen, 98], [99]) != TradeKey(date, [97], [98, Hyphen, 99])
    ensures ToString(TradeKey(date, [97, Hyphen, 98], [99])) == ToString(TradeKey(date, [97], [98, Hyphen, 99]))
  {
    HyphenShift(DateText(date) + [Hyphen]);
  }
}
