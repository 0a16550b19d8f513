/**
 * Instants and their compact UTC text, "%Y%m%dT%H%M%SZ": the form an RRULE's UNTIL takes and the
 * suffix of a recurring instance's id. An instant is a count of seconds since 0001-01-01T00:00:00Z.
 */
module Timestamps {
  import opened Basics
  import opened Text

  type Instant = nat

  const DAY: nat := 86400

  // ---------------------------------------------------------------- the proleptic Gregorian calendar

  datatype Date = Date(year: nat, month: nat, day: nat)

  predicate Leap(y: nat) {
    y % 4 == 0 && (y % 100 != 0 || y % 400 == 0)
  }

  function DaysInMonth(y: nat, m: nat): nat {
    if m == 2 then (if Leap(y) then 29 else 28)
    else if m == 4 || m == 6 || m == 9 || m == 11 then 30
    else 31
  }

  predicate ValidDate(d: Date) {
    1 <= d.year && 1 <= d.month <= 12 && 1 <= d.day <= DaysInMonth(d.year, d.month)
  }

  function NextDay(d: Date): Date {
    if d.day < DaysInMonth(d.year, d.month) then d.(day := d.day + 1)
    else if d.month < 12 then Date(d.year, d.month + 1, 1)
    else Date(d.year + 1, 1, 1)
  }

  /** The date n days after 0001-01-01. */
  function DateOf(n: nat): Date {
    if n == 0 then Date(1, 1, 1) else NextDay(DateOf(n - 1))
  }

  function DaysBeforeYear(y: nat): int {
    365 * (y - 1) + (y - 1) / 4 - (y - 1) / 100 + (y - 1) / 400
  }

  function DaysBeforeMonth(y: nat, m: nat): nat {
    if m <= 1 then 0 else DaysBeforeMonth(y, m - 1) + DaysInMonth(y, m - 1)
  }

  /** The day number of a date, the inverse of DateOf. */
  function DayNumber(d: Date): int {
    DaysBeforeYear(d.year) + DaysBeforeMonth(d.year, d.month) + d.day - 1
  }

  lemma MonthSum(y: nat)
    ensures DaysBeforeMonth(y, 12) + 31 == (if Leap(y) then 366 else 365)
  {
    assert DaysBeforeMonth(y, 2) == 31;
    assert DaysBeforeMonth(y, 4) == 31 + DaysInMonth(y, 2) + 31;
    assert DaysBeforeMonth(y, 6) == DaysBeforeMonth(y, 4) + 61;
    assert DaysBeforeMonth(y, 8) == DaysBeforeMonth(y, 6) + 61;
    assert DaysBeforeMonth(y, 10) == DaysBeforeMonth(y, 8) + 61;
    assert DaysBeforeMonth(y, 12) == DaysBeforeMonth(y, 10) + 61;
  }

  lemma QuotientStep(y: nat, k: nat)
    requires y >= 1 && k >= 2
    ensures y / k == (y - 1) / k + (if y % k == 0 then 1 else 0)
  {
    var q, r := y / k, y % k;
    assert y == q * k + r;
    if r == 0 {
      assert y - 1 == (q - 1) * k + (k - 1);
      DivUnique(y - 1, k, q - 1, k - 1);
    } else {
      assert y - 1 == q * k + (r - 1);
      DivUnique(y - 1, k, q, r - 1);
    }
  }

  lemma YearLength(y: nat)
    requires y >= 1
    ensures DaysBeforeYear(y + 1) == DaysBeforeYear(y) + DaysBeforeMonth(y, 12) + 31
  {
    MonthSum(y);
    QuotientStep(y, 4);
    QuotientStep(y, 100);
    QuotientStep(y, 400);
    LeapDivides(y);
  }

  lemma LeapDivides(y: nat)
    ensures y % 100 == 0 ==> y % 4 == 0
    ensures y % 400 == 0 ==> y % 100 == 0
  {
    if y % 100 == 0 {
      assert y == 4 * (25 * (y / 100));
    }
    if y % 400 == 0 {
      assert y == 100 * (4 * (y / 400));
    }
  }

  lemma NextDayNumber(d: Date)
    requires ValidDate(d)
    ensures ValidDate(NextDay(d)) && DayNumber(NextDay(d)) == DayNumber(d) + 1
  {
    var y, m := d.year, d.month;
    if d.day < DaysInMonth(y, m) {
    } else if m < 12 {
      assert DaysBeforeMonth(y, m + 1) == DaysBeforeMonth(y, m) + DaysInMonth(y, m);
    } else {
      assert m == 12 && d.day == 31;
      YearLength(y);
    }
  }

  lemma {:induction false} DayNumberOfDateOf(n: nat)
    ensures ValidDate(DateOf(n)) && DayNumber(DateOf(n)) == n
  {
    if n > 0 {
      DayNumberOfDateOf(n - 1);
      NextDayNumber(DateOf(n - 1));
    }
  }

  // ---------------------------------------------------------------- the text form

  /** The years "%Y" prints on four digits. */
  predicate Printable(t: Instant) {
    1000 <= DateOf(t / DAY).year <= 9999
  }

  lemma {:induction false} MonthsBound(y: nat, m: nat)
    ensures DaysBeforeMonth(y, m) <= 31 * m
  {
    if m > 1 { MonthsBound(y, m - 1); }
  }

  /** Some thousands of years' worth of days that print on four digits. */
  lemma PrintableDay(t: Instant)
    requires 400000 * DAY <= t < 3000000 * DAY
    ensures Printable(t)
  {
    var d := DateOf(t / DAY);
    DayNumberOfDateOf(t / DAY);
    MonthsBound(d.year, d.month);
    assert 400000 <= t / DAY < 3000000;
    assert DaysBeforeYear(d.year) <= t / DAY < DaysBeforeYear(d.year) + 31 * 12 + 31;
  }

  function Stamp(t: Instant): string {
    var d := DateOf(t / DAY);
    var s := t % DAY;
    Padded(d.year, 4) + Padded(d.month, 2) + Padded(d.day, 2) + "T"
    + Padded(s / 3600, 2) + Padded(s / 60 % 60, 2) + Padded(s % 60, 2) + "Z"
  }

  predicate StampShape(s: string) {
    && |s| == 16 && s[8] == 'T' && s[15] == 'Z'
    && (forall i :: 0 <= i < 15 && i != 8 ==> IsDigit(s[i]))
  }

  function Assembled(d: Date, hh: nat, mm: nat, ss: nat): Option<Instant> {
    if ValidDate(d) && hh < 24 && mm < 60 && ss < 60 && DayNumber(d) >= 0
    then Some(DayNumber(d) * DAY + hh * 3600 + mm * 60 + ss)
    else None
  }

  /** strptime with the same format, on fully padded text. */
  function ParseStamp(s: string): Option<Instant> {
    if !StampShape(s) then None else
    Assembled(Date(ParseDecimal(s[0..4]), ParseDecimal(s[4..6]), ParseDecimal(s[6..8])),
              ParseDecimal(s[9..11]), ParseDecimal(s[11..13]), ParseDecimal(s[13..15]))
  }

  /** A bare date, read as its midnight. */
  function ParseDay(s: string): Option<Instant> {
    if |s| != 8 || !(forall c :: c in s ==> IsDigit(c)) then None else
    var d := Date(ParseDecimal(s[0..4]), ParseDecimal(s[4..6]), ParseDecimal(s[6..8]));
    if ValidDate(d) && DayNumber(d) >= 0 then Some(DayNumber(d) * DAY) else None
  }

  /** s spells the date d and the second r of its day. */
  predicate Spells(s: string, d: Date, r: nat) {
    && StampShape(s)
    && s[0..4] == Padded(d.year, 4) && s[4..6] == Padded(d.month, 2) && s[6..8] == Padded(d.day, 2)
    && s[9..11] == Padded(r / 3600, 2)
    && s[11..13] == Padded(r / 60 % 60, 2)
    && s[13..15] == Padded(r % 60, 2)
  }

  lemma {:induction false} StampSpells(t: Instant)
    ensures Spells(Stamp(t), DateOf(t / DAY), t % DAY)
  {
    var s := Stamp(t);
    var d := DateOf(t / DAY);
    var r := t % DAY;
    var y, m, dd := Padded(d.year, 4), Padded(d.month, 2), Padded(d.day, 2);
    var hh, mm, ss := Padded(r / 3600, 2), Padded(r / 60 % 60, 2), Padded(r % 60, 2);
    assert s == y + m + dd + "T" + hh + mm + ss + "Z";
    assert forall i :: 0 <= i < 4 ==> s[i] == y[i];
    assert forall i :: 0 <= i < 2 ==> s[4 + i] == m[i] && s[6 + i] == dd[i];
    assert s[8] == 'T' && s[15] == 'Z';
    assert forall i :: 0 <= i < 2 ==> s[9 + i] == hh[i] && s[11 + i] == mm[i] && s[13 + i] == ss[i];
  }

  lemma SplitSecond(r: nat)
    requires r < DAY
    ensures r / 3600 < 24 && r / 3600 * 3600 + r / 60 % 60 * 60 + r % 60 == r
  {
    assert r / 60 == r / 3600 * 60 + r / 60 % 60;
    assert r == r / 60 * 60 + r % 60;
  }

  /** Two digits, or four, read back as the number padded. */
  lemma FieldReadsBack(s: string, n: nat, width: nat)
    requires s == Padded(n, width) && n < (if width == 2 then 100 else 10000) && (width == 2 || width == 4)
    ensures ParseDecimal(s) == n
  {
    assert Pow10(1) == 10 && Pow10(2) == 100;
    assert Pow10(3) == 1000 && Pow10(4) == 10000;
    PaddedRoundTrip(n, width);
  }

  lemma ParseSpelled(s: string, d: Date, r: nat)
    requires Spells(s, d, r) && ValidDate(d) && d.year <= 9999 && r < DAY && DayNumber(d) >= 0
    ensures ParseStamp(s) == Assembled(d, r / 3600, r / 60 % 60, r % 60)
  {
    assert ParseDecimal(s[0..4]) == d.year by { FieldReadsBack(s[0..4], d.year, 4); }
    assert ParseDecimal(s[4..6]) == d.month by { FieldReadsBack(s[4..6], d.month, 2); }
    assert ParseDecimal(s[6..8]) == d.day by { FieldReadsBack(s[6..8], d.day, 2); }
    assert ParseDecimal(s[9..11]) == r / 3600 by { FieldReadsBack(s[9..11], r / 3600, 2); }
    assert ParseDecimal(s[11..13]) == r / 60 % 60 by { FieldReadsBack(s[11..13], r / 60 % 60, 2); }
    assert ParseDecimal(s[13..15]) == r % 60 by { FieldReadsBack(s[13..15], r % 60, 2); }
  }

  lemma AssembledAgain(d: Date, r: nat)
    requires ValidDate(d) && DayNumber(d) >= 0 && r < DAY
    ensures Assembled(d, r / 3600, r / 60 % 60, r % 60) == Some(DayNumber(d) * DAY + r)
  {
    SplitSecond(r);
    var hh, mm, ss := r / 3600, r / 60 % 60, r % 60;
    assert hh < 24 && mm < 60 && ss < 60 && hh * 3600 + mm * 60 + ss == r;
  }

  lemma ParseSpelledInstant(s: string, t: Instant)
    requires Spells(s, DateOf(t / DAY), t % DAY) && Printable(t)
    ensures ParseStamp(s) == Some(t)
  {
    DayNumberOfDateOf(t / DAY);
    ParseSpelled(s, DateOf(t / DAY), t % DAY);
    AssembledAgain(DateOf(t / DAY), t % DAY);
  }

  /** Printing an instant and reading it back gives the same instant. */
  lemma StampRoundTrip(t: Instant)
    requires Printable(t)
    ensures ParseStamp(Stamp(t)) == Some(t)
  {
    StampSpells(t);
    ParseSpelledInstant(Stamp(t), t);
  }

  /** The text uses digits and the two letters only, so it is safe inside an id and inside a rule. */
  lemma StampAlphabet(t: Instant)
    ensures forall c :: c in Stamp(t) ==> IsDigit(c) || c == 'T' || c == 'Z'
  {
    StampSpells(t);
    var s := Stamp(t);
    forall i | 0 <= i < |s| ensures IsDigit(s[i]) || s[i] == 'T' || s[i] == 'Z' {
      assert i == 8 || i == 15 || IsDigit(s[i]);
    }
  }

  /** A day's first eight characters read as its midnight. */
  lemma DayReadsAsMidnight(t: Instant)
    requires Printable(t)
    ensures ParseDay(Stamp(t)[..8]) == Some(t / DAY * DAY) && t / DAY * DAY <= t < t / DAY * DAY + DAY
  {
    StampSpells(t);
    DayNumberOfDateOf(t / DAY);
    var s, d := Stamp(t), DateOf(t / DAY);
    var day := s[..8];
    assert day[0..4] == s[0..4] && day[4..6] == s[4..6] && day[6..8] == s[6..8];
    forall c | c in day ensures IsDigit(c) {
      var i :| 0 <= i < 8 && day[i] == c;
      assert s[i] == c;
    }
    DaySpelled(day, d);
  }

  lemma DaySpelled(day: string, d: Date)
    requires |day| == 8 && (forall c :: c in day ==> IsDigit(c)) && ValidDate(d) && d.year <= 9999 && DayNumber(d) >= 0
    requires day[0..4] == Padded(d.year, 4) && day[4..6] == Padded(d.month, 2) && day[6..8] == Padded(d.day, 2)
    ensures ParseDay(day) == Some(DayNumber(d) * DAY)
  {
    assert ParseDecimal(day[0..4]) == d.year by { FieldReadsBack(day[0..4], d.year, 4); }
    assert ParseDecimal(day[4..6]) == d.month by { FieldReadsBack(day[4..6], d.month, 2); }
    assert ParseDecimal(day[6..8]) == d.day by { FieldReadsBack(day[6..8], d.day, 2); }
  }

  /** Where each month ends, leap years and all, and the day the count starts from. */
  lemma MonthsEnd(y: nat)
    ensures DateOf(0) == Date(1, 1, 1) && DayNumber(Date(1970, 1, 1)) == 719162
    ensures forall m :: m in {1, 3, 5, 7, 8, 10} ==>
      NextDay(Date(y, m, 30)) == Date(y, m, 31) && NextDay(Date(y, m, 31)) == Date(y, m + 1, 1)
    ensures forall m :: m in {4, 6, 9, 11} ==> NextDay(Date(y, m, 30)) == Date(y, m + 1, 1)
    ensures NextDay(Date(y, 12, 30)) == Date(y, 12, 31) && NextDay(Date(y, 12, 31)) == Date(y + 1, 1, 1)
    ensures NextDay(Date(y, 2, 28)) ==
      if y % 4 == 0 && (y % 100 != 0 || y % 400 == 0) then Date(y, 2, 29) else Date(y, 3, 1)
    ensures NextDay(Date(y, 2, 29)) == Date(y, 3, 1)
  {}
}
