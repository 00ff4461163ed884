/**
 * Local wall-clock time (the Asia/Phnom_Penh clock the service formats with),
 * passed in as an input, and the three time rules of the service: the offline
 * timeout, the end-of-day submit window and the "HH:mm" ten-minute slot key.
 */
module Timing {
  import opened Wrappers

  /** An hour of the day. */
  type Hour = h: int | 0 <= h < 24
  /** A minute of the hour, or a second of the minute. */
  type Sixty = m: int | 0 <= m < 60
  /** A millisecond of the second. */
  type Milli = m: int | 0 <= m < 1000
  /** A `Date.now()` value: milliseconds since the epoch, positive. */
  type Epoch = t: int | t > 0 witness 1

  /** One reading of the clock: local date "YYYY-MM-DD", local time of day, and `Date.now()`. */
  datatype Clock = Clock(date: string, hour: Hour, minute: Sixty, second: Sixty, millis: Milli, epochMs: Epoch)

  /** `ESP32_TIMEOUT_MS`: one minute without data. */
  const OfflineTimeoutMs: int := 60 * 1000

  /**
   * The inline `isOffline` test: no timestamp was ever recorded (a timestamp of
   * 0 is falsy and counts as none), or more than the timeout has passed.
   */
  predicate IsOffline(last: Option<int>, now: int): (offline: bool)
    ensures last.None? ==> offline
    ensures last.Some? && last.value != 0 && now <= last.value + OfflineTimeoutMs ==> !offline
    ensures last.Some? && now > last.value + OfflineTimeoutMs ==> offline
  {
    !(last.Some? && last.value != 0) || now - last.value > OfflineTimeoutMs
  }

  /** Offline is exactly "never seen, or silent for longer than 60000 ms". */
  lemma OfflineBoundary(t: int)
    requires t > 0
    ensures IsOffline(None, t)
    ensures !IsOffline(Some(t), t)
    ensures !IsOffline(Some(t), t + 59000)
    ensures !IsOffline(Some(t), t + 60000)
    ensures IsOffline(Some(t), t + 60001)
    ensures IsOffline(Some(t), t + 61000)
  {
  }

  /** Once offline, a device stays offline as time passes without a new timestamp. */
  lemma OfflineMonotone(last: Option<int>, now: int, later: int)
    requires now <= later && IsOffline(last, now)
    ensures IsOffline(last, later)
  {
  }

  function MillisOfDay(c: Clock): int {
    ((c.hour * 60 + c.minute) * 60 + c.second) * 1000 + c.millis
  }

  /** 23:59:50.000 and 23:59:59.999, the bounds of `isWithinSubmitWindow`. */
  const WindowStart: int := ((23 * 60 + 59) * 60 + 50) * 1000
  const WindowEnd: int := ((23 * 60 + 59) * 60 + 59) * 1000 + 999

  /**
   * `isWithinSubmitWindow`: the clock lies between both bounds, inclusive, on
   * its own day; that is the last ten seconds of the day, 23:59:50 up to midnight.
   */
  predicate InSubmitWindow(c: Clock): (inside: bool)
    ensures inside <==> c.hour == 23 && c.minute == 59 && c.second >= 50
  {
    var m := (c.hour * 60 + c.minute) * 60 + c.second;
    assert MillisOfDay(c) == m * 1000 + c.millis;
    assert WindowStart <= MillisOfDay(c) ==> m >= 86390 && c.hour * 60 + c.minute >= 1439;
    assert c.hour == 23 && c.minute == 59 ==> m == 86340 + c.second;
    WindowStart <= MillisOfDay(c) <= WindowEnd
  }

  /** Two decimal digits, zero-padded, as dayjs formats "HH" and "mm". */
  function TwoDigits(n: int): (s: string)
    requires 0 <= n < 100
    ensures |s| == 2 && '0' <= s[0] <= '9' && '0' <= s[1] <= '9'
    ensures (s[0] as int - '0' as int) * 10 + (s[1] as int - '0' as int) == n
  {
    [('0' as int + n / 10) as char, ('0' as int + n % 10) as char]
  }

  /** `now.format("HH:mm")`, the time-slot field name. */
  function TimeSlot(c: Clock): (s: string)
    ensures |s| == 5 && s[2] == ':'
    ensures '0' <= s[0] <= '9' && '0' <= s[1] <= '9' && '0' <= s[3] <= '9' && '0' <= s[4] <= '9'
    ensures (s[0] as int - '0' as int) * 10 + (s[1] as int - '0' as int) == c.hour
    ensures (s[3] as int - '0' as int) * 10 + (s[4] as int - '0' as int) == c.minute
  {
    TwoDigits(c.hour) + ":" + TwoDigits(c.minute)
  }

  /** `${date} ${timeSlot}`, the value of the ten-minute dedup marker. */
  function SlotKey(c: Clock): string
  {
    c.date + " " + TimeSlot(c)
  }

  /** Ticks at minutes that are multiples of ten are the ones that may save. */
  predicate IsSlotMinute(c: Clock) {
    c.minute % 10 == 0
  }

  /** Distinct slots never share a marker: the key determines the date, hour and minute. */
  lemma SlotKeyInjective(c1: Clock, c2: Clock)
    ensures SlotKey(c1) == SlotKey(c2) <==>
      c1.date == c2.date && c1.hour == c2.hour && c1.minute == c2.minute
  {
    if SlotKey(c1) == SlotKey(c2) {
      var k := SlotKey(c1);
      assert |c1.date| == |c2.date|;
      assert c1.date == k[..|c1.date|] == c2.date;
      var s1, s2 := TimeSlot(c1), TimeSlot(c2);
      assert s1 == k[|k| - 5..] == s2;
      assert TwoDigits(c1.hour) == s1[..2] == s2[..2] == TwoDigits(c2.hour);
      assert TwoDigits(c1.minute) == s1[3..] == s2[3..] == TwoDigits(c2.minute);
    }
  }
}
