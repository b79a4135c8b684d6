/** src/utils/date.ts with the clock taken as a parameter: `now` and every
    target are millisecond timestamps (what `Date.getTime()` returns), so the
    calendar arithmetic of `new Date(year, 1, day, hour)` happens outside
    the model. */
module Dates {
  const MsPerSecond := 1000
  const MsPerMinute := 60000
  const MsPerHour := 3600000
  const MsPerDay := 86400000

  /** The anniversary date `getTimeTogether` counts from; the module keeps one. */
  class AnniversaryClock {
    var date: string

    /** The date the module starts with before any link is opened. */
    constructor ()
      ensures date == "2022-07-28T00:00:00"
    {
      date := "2022-07-28T00:00:00";
    }

    /** `setAnniversaryDate`: overwrites the single stored date. */
    method SetAnniversaryDate(d: string)
      modifies this
      ensures date == d
    {
      date := d;
    }
  }

  datatype TimeLeft = TimeLeft(hours: int, minutes: int, seconds: int)

  /** The milliseconds a `TimeLeft` stands for. */
  function Millis(t: TimeLeft): int {
    t.hours * MsPerHour + t.minutes * MsPerMinute + t.seconds * MsPerSecond
  }

  /** `getTimeUntil`: all zeros once the target is reached; otherwise whole
      hours, minutes below 60 and seconds below 60 that account for the
      difference to within the final, partial second. */
  function GetTimeUntil(now: int, target: int): (t: TimeLeft)
    ensures target - now <= 0 ==> t == TimeLeft(0, 0, 0)
    ensures target - now > 0 ==>
      t.hours >= 0 && 0 <= t.minutes < 60 && 0 <= t.seconds < 60 &&
      Millis(t) <= target - now < Millis(t) + MsPerSecond
  {
    var diff := target - now;
    if diff <= 0 then TimeLeft(0, 0, 0)
    else
      var t := TimeLeft(diff / MsPerHour, (diff % MsPerHour) / MsPerMinute, (diff % MsPerMinute) / MsPerSecond);
      DecomposeMillis(diff);
      t
  }

  lemma DecomposeMillis(diff: int)
    requires diff > 0
    ensures var h, r := diff / MsPerHour, diff % MsPerHour;
            var m, s := r / MsPerMinute, (diff % MsPerMinute) / MsPerSecond;
            h >= 0 && 0 <= m < 60 && 0 <= s < 60 &&
            h * MsPerHour + m * MsPerMinute + s * MsPerSecond <= diff < h * MsPerHour + m * MsPerMinute + s * MsPerSecond + MsPerSecond
  {
    var h, r := diff / MsPerHour, diff % MsPerHour;
    var m, r2 := r / MsPerMinute, r % MsPerMinute;
    var s := r2 / MsPerSecond;
    assert diff == h * MsPerHour + r;
    assert r == m * MsPerMinute + r2;
    assert r2 == s * MsPerSecond + r2 % MsPerSecond;
    assert diff == (h * 60 + m) * MsPerMinute + r2;
    DivBy(diff, MsPerMinute, h * 60 + m, r2);
  }

  /** The decomposition is the only one with those bounds: any hours,
      minutes and seconds in range that account for the difference to
      within a second are what `getTimeUntil` returns. */
  lemma TimeLeftUnique(now: int, target: int, t: TimeLeft)
    requires target - now > 0
    requires t.hours >= 0 && 0 <= t.minutes < 60 && 0 <= t.seconds < 60
    requires Millis(t) <= target - now < Millis(t) + MsPerSecond
    ensures GetTimeUntil(now, target) == t
  {
    var diff := target - now;
    var e := diff - Millis(t);
    var b := t.seconds * MsPerSecond + e;
    var a := t.minutes * MsPerMinute + b;
    DivBy(diff, MsPerHour, t.hours, a);
    DivBy(a, MsPerMinute, t.minutes, b);
    DivBy(diff, MsPerMinute, t.hours * 60 + t.minutes, b);
    DivBy(b, MsPerSecond, t.seconds, e);
  }

  /** Quotient and remainder are determined by `x == q * c + r` with `0 <= r < c`. */
  lemma DivBy(x: int, c: int, q: int, r: int)
    requires c > 0 && 0 <= r < c && x == q * c + r
    ensures x / c == q && x % c == r
  {
    var q', r' := x / c, x % c;
    assert (q - q') * c == r' - r && (q' - q) * c == r - r' by {
      assert x == q' * c + r';
      assert q * c - q' * c == (q - q') * c;
      assert q' * c - q * c == (q' - q) * c;
    }
    if q' < q {
      MulAtLeast(q - q', c);
    } else if q' > q {
      MulAtLeast(q' - q, c);
    }
  }

  lemma {:induction false} MulAtLeast(k: int, c: int)
    requires k >= 1 && c > 0
    ensures k * c >= c
    decreases k
  {
    if k > 1 {
      MulAtLeast(k - 1, c);
      assert k * c == (k - 1) * c + c;
    }
  }

  /** `getDaysUntil`: never negative; for a future target, the number of
      days rounded up (`Math.ceil`) from the difference. */
  function GetDaysUntil(now: int, target: int): (days: nat)
    ensures target - now <= 0 ==> days == 0
    ensures target - now > 0 ==> days >= 1 && (days - 1) * MsPerDay < target - now <= days * MsPerDay
  {
    var diff := target - now;
    if diff <= 0 then 0
    else
      var days := (diff + MsPerDay - 1) / MsPerDay;
      CeilDiv(diff, MsPerDay);
      days
  }

  lemma CeilDiv(n: int, d: int)
    requires n > 0 && d > 0
    ensures var c := (n + d - 1) / d; c >= 1 && (c - 1) * d < n <= c * d
  {
    var c := (n + d - 1) / d;
    var r := (n + d - 1) % d;
    assert n + d - 1 == c * d + r;
  }

  /** `isTrackUnlocked`: the `debug_unlock_all` flag unlocks everything; otherwise the target must have been reached. */
  function IsTrackUnlocked(debugUnlock: bool, now: int, target: int): (unlocked: bool)
    ensures debugUnlock ==> unlocked
    ensures !debugUnlock ==> (unlocked <==> GetDaysUntil(now, target) == 0)
  {
    debugUnlock || now >= target
  }

  /** Unlocking is monotone in time: what is unlocked stays unlocked. */
  lemma UnlockMonotone(debugUnlock: bool, now: int, later: int, target: int)
    requires now <= later && IsTrackUnlocked(debugUnlock, now, target)
    ensures IsTrackUnlocked(debugUnlock, later, target)
  {
  }

  /** An unlocked track without the debug flag has nothing left to count down. */
  lemma UnlockedMeansNoTimeLeft(now: int, target: int)
    requires IsTrackUnlocked(false, now, target)
    ensures GetTimeUntil(now, target) == TimeLeft(0, 0, 0)
  {
  }

  /** The converse fails in the last second before the target: the countdown
      already shows all zeros while the track is still locked. */
  lemma ZeroCountdownWhileLocked()
    ensures GetTimeUntil(0, 500) == TimeLeft(0, 0, 0) && !IsTrackUnlocked(false, 0, 500)
  {
  }

  datatype CalendarPhase = InvitationPhase | DashboardPhase

  /** `getCurrentPhase`: the dashboard from 14 February 00:00 of the current year on. */
  function GetCurrentPhase(now: int, feb14: int): (ph: CalendarPhase)
    ensures ph == DashboardPhase <==> IsTrackUnlocked(false, now, feb14)
  {
    if now >= feb14 then DashboardPhase else InvitationPhase
  }
}
