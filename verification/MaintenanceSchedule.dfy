/**
 * When the nightly batch is due. Times are microseconds of local wall clock, at a fixed offset, since a
 * Monday midnight.
 */
module MaintenanceSchedule {
  import opened Basics

  const HOUR: nat := 3_600_000_000
  const DAY: nat := 24 * HOUR

  datatype Cadence = Hourly | Daily | Weekly

  datatype Schedule = Schedule(enabled: bool, cadence: Cadence, hour: int, weekday: Option<int>)

  /** validate_cadence. */
  predicate Valid(s: Schedule) {
    && 0 <= s.hour <= 23
    && (if s.cadence.Weekly? then s.weekday.Some? && 0 <= s.weekday.value <= 6 else s.weekday.None?)
  }

  function HourOf(t: nat): nat {
    t % DAY / HOUR
  }

  function WeekdayOf(t: nat): nat {
    t / DAY % 7
  }

  function NextRunAt(s: Schedule, now: nat): nat
    requires Valid(s)
  {
    var target := now - now % DAY + s.hour * HOUR;
    match s.cadence
    case Hourly => now - now % HOUR + HOUR
    case Daily => if target <= now then target + DAY else target
    case Weekly =>
      var ahead := (s.weekday.value - WeekdayOf(now)) % 7;
      target + (if ahead == 0 && target <= now then 7 else ahead) * DAY
  }

  /** Due at this local time, and not already fired in this window. */
  predicate IsDue(s: Schedule, now: nat, lastFired: Option<nat>) {
    if !s.enabled then false
    else if s.cadence.Hourly? then
      !(lastFired.Some? && lastFired.value / DAY == now / DAY && HourOf(lastFired.value) == HourOf(now))
    else
      && HourOf(now) == s.hour
      && (s.cadence.Weekly? ==> Some(WeekdayOf(now)) == s.weekday)
      && !(lastFired.Some? && lastFired.value / DAY == now / DAY)
  }

  /** The local window a firing belongs to: its hour, or its day. */
  function Window(s: Schedule, t: nat): nat {
    if s.cadence.Hourly? then t / HOUR else t / DAY
  }

  // ---------------------------------------------------------------- the next run

  lemma OnTheHour(t: nat)
    ensures t / HOUR == t / DAY * 24 + HourOf(t)
    ensures t % HOUR == 0 <==> t == t / DAY * DAY + HourOf(t) * HOUR
  {
    assert t == t / DAY * DAY + t % DAY;
    assert t % DAY == HourOf(t) * HOUR + t % DAY % HOUR;
  }

  lemma AtHour(day: nat, hour: nat)
    requires hour <= 23
    ensures var t := day * DAY + hour * HOUR; t / DAY == day && HourOf(t) == hour && t % HOUR == 0
  {}

  /** No whole hour strictly between now and the next run is due. */
  lemma NothingEarlier(s: Schedule, now: nat, t: nat)
    requires Valid(s) && s.enabled && t % HOUR == 0 && now < t && IsDue(s, t, None)
    ensures NextRunAt(s, now) <= t
  {
    OnTheHour(t);
    OnTheHour(now);
    var today, day := now / DAY, t / DAY;
    match s.cadence {
      case Hourly =>
        assert t == t / HOUR * HOUR && now == now / HOUR * HOUR + now % HOUR;
        assert now / HOUR < t / HOUR;
      case Daily => NothingEarlierDaily(s, now, t, today, day);
      case Weekly => NothingEarlierWeekly(s, now, t, today, day);
    }
  }

  lemma NothingEarlierDaily(s: Schedule, now: nat, t: nat, today: nat, day: nat)
    requires Valid(s) && s.cadence.Daily? && now < t && today == now / DAY && t == day * DAY + s.hour * HOUR
    ensures NextRunAt(s, now) <= t
  {
    assert now - now % DAY == today * DAY;
    if day > today { assert day * DAY >= today * DAY + DAY; }
  }

  lemma NothingEarlierWeekly(s: Schedule, now: nat, t: nat, today: nat, day: nat)
    requires Valid(s) && s.cadence.Weekly? && now < t && today == now / DAY && t == day * DAY + s.hour * HOUR
    requires today <= day && Some(day % 7) == s.weekday && WeekdayOf(now) == today % 7
    ensures NextRunAt(s, now) <= t
  {
    assert now - now % DAY == today * DAY;
    WeeklyStep(today, day, s.weekday.value);
  }

  lemma WeeklyStep(today: nat, day: nat, weekday: int)
    requires 0 <= weekday <= 6 && today <= day && day % 7 == weekday
    ensures var ahead := (weekday - today % 7) % 7;
      today + ahead <= day && (today + ahead) % 7 == weekday && (day > today && ahead == 0 ==> today + 7 <= day)
  {
    var p, r, q := today / 7, today % 7, day / 7;
    assert today == 7 * p + r && day == 7 * q + weekday;
    var ahead := (weekday - r) % 7;
    assert ahead == if weekday >= r then weekday - r else weekday - r + 7;
    assert today + ahead == 7 * (if weekday >= r then p else p + 1) + weekday;
  }

  lemma DailyNext(s: Schedule, now: nat)
    requires Valid(s) && s.enabled && s.cadence.Daily?
    ensures var n := NextRunAt(s, now); now < n && n % HOUR == 0 && IsDue(s, n, None)
  {
    var today := now / DAY;
    assert now - now % DAY == today * DAY;
    AtHour(today, s.hour);
    AtHour(today + 1, s.hour);
  }

  lemma WeeklyNext(s: Schedule, now: nat)
    requires Valid(s) && s.enabled && s.cadence.Weekly?
    ensures var n := NextRunAt(s, now); now < n && n % HOUR == 0 && IsDue(s, n, None)
  {
    var today := now / DAY;
    var days := DaysAhead(s, now);
    RightDay(today, s.weekday.value, days);
    WeeklyTarget(s, now, today, days);
    AtHour(today + days, s.hour);
  }

  function DaysAhead(s: Schedule, now: nat): nat
    requires Valid(s) && s.cadence.Weekly?
  {
    var ahead := (s.weekday.value - WeekdayOf(now)) % 7;
    if ahead == 0 && now - now % DAY + s.hour * HOUR <= now then 7 else ahead
  }

  lemma WeeklyTarget(s: Schedule, now: nat, today: nat, days: nat)
    requires Valid(s) && s.cadence.Weekly? && today == now / DAY && days == DaysAhead(s, now)
    ensures NextRunAt(s, now) == (today + days) * DAY + s.hour * HOUR && now < NextRunAt(s, now)
  {
    assert now - now % DAY == today * DAY && now < today * DAY + DAY;
    assert (today + days) * DAY == today * DAY + days * DAY;
    if days > 0 { assert days * DAY >= DAY; }
  }

  lemma RightDay(today: nat, weekday: int, days: nat)
    requires 0 <= weekday <= 6 && (days == (weekday - today % 7) % 7 || (days == 7 && weekday == today % 7))
    ensures (today + days) % 7 == weekday
  {}

  /**
   * The planned time is later than now, is the start of a due window, and no whole hour in between is due:
   * it is the least such time.
   */
  lemma NextRunIsTheNextDueWindow(s: Schedule, now: nat, t: nat)
    requires Valid(s) && s.enabled
    ensures var n := NextRunAt(s, now);
      && now < n && n % HOUR == 0 && IsDue(s, n, None)
      && (now < t < n && t % HOUR == 0 ==> !IsDue(s, t, None))
  {
    match s.cadence {
      case Hourly =>
        assert NextRunAt(s, now) == (now / HOUR + 1) * HOUR;
      case Daily => DailyNext(s, now);
      case Weekly => WeeklyNext(s, now);
    }
    if t % HOUR == 0 && now < t && IsDue(s, t, None) {
      NothingEarlier(s, now, t);
    }
  }

  // ---------------------------------------------------------------- the next run after a firing

  /** The batch is planned for later today, though it has fired today already. */
  predicate FiredToday(s: Schedule, now: nat, last: nat) {
    && !s.cadence.Hourly? && last / DAY == now / DAY && HourOf(now) < s.hour
    && (s.cadence.Weekly? ==> s.weekday == Some(WeekdayOf(now)))
  }

  lemma PlannedDay(s: Schedule, now: nat)
    requires Valid(s) && !s.cadence.Hourly?
    ensures now / DAY <= NextRunAt(s, now) / DAY
    ensures NextRunAt(s, now) / DAY == now / DAY <==> FiredToday(s, now, now)
  {
    var today := now / DAY;
    assert now == today * DAY + now % DAY;
    OnTheHour(now);
    if s.cadence.Daily? {
      AtHour(today, s.hour);
      AtHour(today + 1, s.hour);
    } else {
      var days := DaysAhead(s, now);
      WeeklyTarget(s, now, today, days);
      AtHour(today + days, s.hour);
    }
  }

  /**
   * The planned run does not know when the batch last fired. It will be due exactly unless it is planned for
   * later on a day the batch has already fired, as when its hour is moved back from one that has passed.
   */
  lemma PlannedRunIsDueIff(s: Schedule, now: nat, last: nat)
    requires Valid(s) && s.enabled && last <= now
    ensures IsDue(s, NextRunAt(s, now), Some(last)) <==> !FiredToday(s, now, last)
  {
    NextRunIsTheNextDueWindow(s, now, 0);
    var n := NextRunAt(s, now);
    if s.cadence.Hourly? {
      OnTheHour(last);
      OnTheHour(n);
      assert n == (now / HOUR + 1) * HOUR;
      assert last / HOUR <= now / HOUR;
    } else {
      PlannedDay(s, now);
      assert last / DAY <= now / DAY;
    }
  }

  /** A firing this very schedule made never spoils its plan. */
  lemma OwnFiringLeavesThePlan(s: Schedule, now: nat, last: nat)
    requires Valid(s) && s.enabled && last <= now && IsDue(s, last, None)
    ensures IsDue(s, NextRunAt(s, now), Some(last))
  {
    PlannedRunIsDueIff(s, now, last);
    if last / DAY == now / DAY {
      assert HourOf(last) <= HourOf(now);
    }
  }

  // ---------------------------------------------------------------- once per window

  /** A poll: the local time it judged by, and the slightly later time it stamps a firing with. */
  datatype Poll = Poll(now: nat, stamp: nat)

  /** The times judged due, over a fixed schedule. */
  function Firings(s: Schedule, polls: seq<Poll>, last: Option<nat>): seq<nat> {
    if polls == [] then []
    else if IsDue(s, polls[0].now, last) then [polls[0].now] + Firings(s, polls[1..], Some(polls[0].stamp))
    else Firings(s, polls[1..], last)
  }

  ghost predicate InOrder(polls: seq<Poll>, last: Option<nat>) {
    && (forall i :: 0 <= i < |polls| ==> polls[i].now <= polls[i].stamp)
    && (forall i, j :: 0 <= i < j < |polls| ==> polls[i].stamp <= polls[j].now)
    && (last.Some? ==> forall i :: 0 <= i < |polls| ==> last.value <= polls[i].now)
  }

  lemma WindowsAreDays(s: Schedule, a: nat, b: nat)
    ensures s.cadence.Hourly? ==> (Window(s, a) == Window(s, b) <==> a / DAY == b / DAY && HourOf(a) == HourOf(b))
  {
    OnTheHour(a);
    OnTheHour(b);
  }

  lemma WindowMonotone(s: Schedule, a: nat, b: nat)
    requires a <= b
    ensures Window(s, a) <= Window(s, b)
  {}

  lemma {:induction false} FiringsAfter(s: Schedule, polls: seq<Poll>, last: nat, i: nat)
    requires InOrder(polls, Some(last)) && i < |Firings(s, polls, Some(last))|
    ensures last <= Firings(s, polls, Some(last))[i] && Window(s, last) < Window(s, Firings(s, polls, Some(last))[i])
  {
    var p := polls[0];
    assert InOrder(polls[1..], Some(last)) && InOrder(polls[1..], Some(p.stamp));
    WindowsAreDays(s, last, p.now);
    WindowMonotone(s, last, p.now);
    WindowMonotone(s, p.now, p.stamp);
    if IsDue(s, p.now, Some(last)) {
      if i > 0 { FiringsAfter(s, polls[1..], p.stamp, i - 1); }
    } else {
      FiringsAfter(s, polls[1..], last, i);
    }
  }

  /** Scheduled batches start at most once per local window, and only in due ones. */
  lemma {:induction false} FiresOncePerWindow(s: Schedule, polls: seq<Poll>, last: Option<nat>, i: nat, j: nat)
    requires InOrder(polls, last) && i < j < |Firings(s, polls, last)|
    ensures Window(s, Firings(s, polls, last)[i]) < Window(s, Firings(s, polls, last)[j])
    ensures IsDue(s, Firings(s, polls, last)[i], None)
  {
    var p := polls[0];
    assert InOrder(polls[1..], last) && InOrder(polls[1..], Some(p.stamp));
    if IsDue(s, p.now, last) {
      if i == 0 {
        FiringsAfter(s, polls[1..], p.stamp, j - 1);
        WindowMonotone(s, p.now, p.stamp);
      } else {
        FiresOncePerWindow(s, polls[1..], Some(p.stamp), i - 1, j - 1);
      }
    } else {
      FiresOncePerWindow(s, polls[1..], last, i, j);
    }
  }

  /**
   * On the clock: at any microsecond r of the hour that begins day days and hour hours after a Monday midnight, an
   * enabled hourly schedule is due; a daily one at its hour; a weekly one at its hour of its weekday, counted from
   * Monday; unless it has fired in that hour, or that day.
   */
  lemma DueOnTheClock(s: Schedule, day: nat, hour: nat, r: nat, last: Option<nat>)
    requires hour < 24 && r < 3_600_000_000
    ensures IsDue(s, day * 86_400_000_000 + hour * 3_600_000_000 + r, last) <==>
      s.enabled && match s.cadence
                   case Hourly => last.None? || last.value / 3_600_000_000 != day * 24 + hour
                   case Daily => hour == s.hour && (last.None? || last.value / 86_400_000_000 != day)
                   case Weekly => hour == s.hour && s.weekday == Some(day % 7)
                                  && (last.None? || last.value / 86_400_000_000 != day)
  {
    var t := day * DAY + hour * HOUR + r;
    ClockReads(day, hour, r);
    if last.Some? {
      OnTheHour(last.value);
      OnTheHour(t);
    }
  }

  lemma ClockReads(day: nat, hour: nat, r: nat)
    requires hour < 24 && r < HOUR
    ensures var t := day * DAY + hour * HOUR + r; t / DAY == day && HourOf(t) == hour && t / HOUR == day * 24 + hour
  {
    var t := day * DAY + hour * HOUR + r;
    DivUnique(t, DAY, day, hour * HOUR + r);
    assert t % DAY == hour * HOUR + r;
    DivUnique(t % DAY, HOUR, hour, r);
    DivUnique(t, HOUR, day * 24 + hour, r);
  }
}
