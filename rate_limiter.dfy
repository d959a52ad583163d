/** `SimpleRateLimiter` of bot.py: at most `maxCalls` external queries per
    cycle; the call after that waits out the rest of the cycle, in sleeps of at
    most 60 seconds, and then opens a new cycle of which it is the first call.

    The wall clock is an integer number of seconds passed in by the caller,
    and sleeping is exact: a caller that sleeps `d` seconds at time `t` wakes
    at `t + d`. The asyncio lock only serialises callers, so calls are
    modelled one after another. */
module RateLimiting {
  import opened Text
  import opened Arith

  /** A text the limiter hands to its progress callback. */
  datatype Notice =
    | LimitReached(maxCalls: nat, minutes: int, seconds: int)  // the pause begins
    | StillWaiting(minutes: int, seconds: int)                 // after each sleep that leaves time to wait
    | PauseOver                                                // the new cycle opens

  /** What `get_status` reports. The source reports the time to the next
      reset in minutes rounded to one decimal; here it is whole seconds. */
  datatype Status = Status(used: nat, remaining: nat, nextResetSeconds: int, cycleTime: int)

  function Sum(s: seq<int>): int
  {
    if s == [] then 0 else Sum(s[..|s| - 1]) + s[|s| - 1]
  }

  function Max(a: int, b: int): int { if a < b then b else a }

  /** The remaining wait as the callback text shows it: whole minutes and seconds. */
  function Remaining(w: int): Notice { StillWaiting(w / 60, w % 60) }

  /** The sleeps of a wait of `w` seconds: full minutes, then the rest. */
  function Chunks(w: int): seq<int>
    decreases w
  {
    if w <= 0 then [] else if w <= 60 then [w] else [60] + Chunks(w - 60)
  }

  /** What the callback hears during a wait of `w` seconds: after each sleep
      that leaves time to wait, how much is left. */
  function Reminders(w: int): seq<Notice>
    decreases w
  {
    if w <= 60 then [] else [Remaining(w - 60)] + Reminders(w - 60)
  }

  lemma {:induction false} SumCons(x: int, s: seq<int>)
    ensures Sum([x] + s) == x + Sum(s)
  {
    if s != [] {
      SumCons(x, s[..|s| - 1]);
      assert ([x] + s)[..|s|] == [x] + s[..|s| - 1];
    }
  }

  /** The sleeps add up to the wait, none is longer than a minute and all
      but the last are a full minute. */
  lemma {:induction false} ChunksShape(w: int)
    ensures Sum(Chunks(w)) == Max(w, 0)
    ensures forall k :: 0 <= k < |Chunks(w)| ==> 0 < Chunks(w)[k] <= 60
    ensures forall k :: 0 <= k < |Chunks(w)| - 1 ==> Chunks(w)[k] == 60
    decreases w
  {
    if w > 60 {
      ChunksShape(w - 60);
      SumCons(60, Chunks(w - 60));
      assert Chunks(w) == [60] + Chunks(w - 60);
    } else if w > 0 {
      assert Sum([w]) == Sum([]) + w;
    }
  }

  /** One reminder follows every sleep but the last, telling the time then
      left, which is never zero. */
  lemma {:induction false} RemindersShape(w: int)
    ensures |Reminders(w)| == Max(|Chunks(w)| - 1, 0)
    ensures |Reminders(w)| > 0 ==> w - 60 * |Reminders(w)| > 0
    ensures forall k :: 0 <= k < |Reminders(w)| ==> Reminders(w)[k] == Remaining(w - 60 * (k + 1))
    decreases w
  {
    if w > 60 {
      RemindersShape(w - 60);
      var tail := Reminders(w - 60);
      assert Reminders(w) == [Remaining(w - 60)] + tail;
      forall k | 0 <= k < |Reminders(w)| ensures Reminders(w)[k] == Remaining(w - 60 * (k + 1)) {
        if k > 0 {
          assert Reminders(w)[k] == tail[k - 1];
          assert (w - 60) - 60 * ((k - 1) + 1) == w - 60 * (k + 1);
        }
      }
    }
  }

  /** One pass of the waiting loop takes one chunk off the front. */
  lemma PauseStep(left: int, chunk: int)
    requires left > 0 && chunk == (if left < 60 then left else 60)
    ensures Chunks(left) == [chunk] + Chunks(left - chunk)
    ensures Reminders(left) == (if left - chunk > 0 then [Remaining(left - chunk)] else []) + Reminders(left - chunk)
  {
  }

  /** The sleep loop of `wait_if_needed`: sleeps `waitTime` seconds in chunks of
      at most 60, and after each chunk that leaves time to wait tells the
      callback (when there is one) how long is left. */
  method Pause(waitTime: int, hasCallback: bool) returns (chunks: seq<int>, notices: seq<Notice>)
    ensures chunks == Chunks(waitTime)
    ensures notices == if hasCallback then Reminders(waitTime) else []
  {
    chunks, notices := [], [];
    var left := waitTime;
    while left > 0
      invariant chunks + Chunks(left) == Chunks(waitTime)
      invariant notices + (if hasCallback then Reminders(left) else []) == (if hasCallback then Reminders(waitTime) else [])
    {
      var chunk := if left < 60 then left else 60;
      PauseStep(left, chunk);
      AppendAssoc(chunks, [chunk], Chunks(left - chunk));
      if left - chunk > 0 && hasCallback {
        AppendAssoc(notices, [Remaining(left - chunk)], Reminders(left - chunk));
      }
      chunks := chunks + [chunk];
      left := left - chunk;
      if left > 0 && hasCallback {
        notices := notices + [Remaining(left)];
      }
    }
  }

  // -----------------------------------------------------------------------
  // The counting rule, as a function of the count alone.

  /** The largest count a limiter with this quota can hold after a call. */
  function Cap(maxCalls: nat): nat { if maxCalls == 0 then 1 else maxCalls }

  /** Whether the call made while the count is `count` is the one over the
      quota, which waits out the cycle and restarts the count. */
  predicate OverQuota(count: nat, maxCalls: nat)
  {
    count + 1 != 1 && count + 1 > maxCalls
  }

  /** The count after one more call. */
  function Admit(count: nat, maxCalls: nat): (r: nat)
    ensures 1 <= r <= Max(count + 1, 1)
    ensures count <= Cap(maxCalls) ==> r <= Cap(maxCalls)
  {
    if OverQuota(count, maxCalls) then 1 else count + 1
  }

  /** The count after `n` calls made from count `count`. */
  function AdmitN(count: nat, n: nat, maxCalls: nat): nat
  {
    if n == 0 then count else Admit(AdmitN(count, n - 1, maxCalls), maxCalls)
  }

  /** How many of `n` calls made from count `count` were over the quota. */
  function Pauses(count: nat, n: nat, maxCalls: nat): nat
  {
    if n == 0 then 0
    else Pauses(count, n - 1, maxCalls) + if OverQuota(AdmitN(count, n - 1, maxCalls), maxCalls) then 1 else 0
  }

  /** From a fresh limiter, `n` calls leave a count between 1 and the quota,
      and every earlier cycle held exactly `maxCalls` calls. */
  lemma {:induction false} CyclesAreFull(n: nat, maxCalls: nat)
    requires maxCalls >= 1 && n >= 1
    ensures 1 <= AdmitN(0, n, maxCalls) <= maxCalls
    ensures Pauses(0, n, maxCalls) * maxCalls + AdmitN(0, n, maxCalls) == n
  {
    if n > 1 {
      CyclesAreFull(n - 1, maxCalls);
    }
  }

  /** Of `n` calls from a fresh limiter exactly (n-1) div maxCalls wait. */
  lemma PausesClosedForm(n: nat, maxCalls: nat)
    requires maxCalls >= 1 && n >= 1
    ensures Pauses(0, n, maxCalls) == (n - 1) / maxCalls
  {
    CyclesAreFull(n, maxCalls);
    var p, c := Pauses(0, n, maxCalls), AdmitN(0, n, maxCalls);
    DivUnique(n - 1, maxCalls, p, c - 1);
  }

  /** 25 rows against a quota of 10: the 11th and the 21st call wait, no other. */
  lemma TwentyFiveCallsPauseTwice()
    ensures Pauses(0, 25, 10) == 2
    ensures OverQuota(AdmitN(0, 10, 10), 10) && OverQuota(AdmitN(0, 20, 10), 10)
  {
    PausesClosedForm(25, 10);
    CyclesAreFull(10, 10);
    CyclesAreFull(20, 10);
  }

  // -----------------------------------------------------------------------

  class SimpleRateLimiter {
    const maxCalls: nat
    const waitSeconds: nat
    var callCount: nat
    var resetTime: Option<int>
    var cycleStartTime: Option<int>

    /** Both times are set by the first call and never cleared, and the count
        never exceeds the quota (or 1, for a quota of 0). */
    ghost predicate Valid()
      reads this
    {
      && (callCount == 0 <==> resetTime.None?)
      && (callCount == 0 <==> cycleStartTime.None?)
      && callCount <= Cap(maxCalls)
    }

    constructor (maxCalls: nat, waitMinutes: nat)
      ensures Valid()
      ensures this.maxCalls == maxCalls && waitSeconds == waitMinutes * 60
      ensures callCount == 0 && resetTime == None && cycleStartTime == None
    {
      this.maxCalls := maxCalls;
      waitSeconds := waitMinutes * 60;
      callCount := 0;
      resetTime := None;
      cycleStartTime := None;
    }

    /** `wait_if_needed` called at time `now`; `later` is the time it returns. */
    method WaitIfNeeded(now: int, hasUser: bool, hasCallback: bool) returns (notices: seq<Notice>, later: int)
      requires Valid()
      modifies this
      ensures Valid()
      ensures callCount == Admit(old(callCount), maxCalls)
      ensures 1 <= callCount && (maxCalls >= 1 ==> callCount <= maxCalls)
      // the first call ever opens the first cycle
      ensures old(callCount) == 0 ==>
                resetTime == Some(now) && cycleStartTime == Some(now) && later == now && notices == []
      // calls inside the quota pass straight through
      ensures old(callCount) != 0 && !OverQuota(old(callCount), maxCalls) ==>
                resetTime == old(resetTime) && cycleStartTime == old(cycleStartTime) && later == now && notices == []
      // the call over the quota opens a new cycle no earlier than
      // `waitSeconds` after the old one opened
      ensures OverQuota(old(callCount), maxCalls) ==>
                && callCount == 1
                && later == Max(now, old(resetTime).value + waitSeconds)
                && resetTime == Some(later)
                && cycleStartTime == old(cycleStartTime)
      // what the callback hears during that call: the limit notice when
      // there is time to wait and a user, a reminder after every sleep but
      // the last, and the end of the pause
      ensures OverQuota(old(callCount), maxCalls) ==>
                var w := old(resetTime).value + waitSeconds - now;
                notices == (if w > 0 && hasUser && hasCallback then [LimitReached(maxCalls, w / 60, w % 60)] else [])
                           + (if hasCallback then Reminders(w) + [PauseOver] else [])
      ensures !hasCallback ==> notices == []
    {
      notices, later := [], now;
      callCount := callCount + 1;
      if callCount == 1 {
        resetTime := Some(now);
        cycleStartTime := Some(now);
        return;
      }
      if callCount > maxCalls {
        var elapsed := now - resetTime.value;
        var waitTime := waitSeconds - elapsed;
        if waitTime > 0 {
          if hasUser && hasCallback {
            notices := [LimitReached(maxCalls, waitTime / 60, waitTime % 60)];
          }
          var chunks, pauseNotices := Pause(waitTime, hasCallback);
          ChunksShape(waitTime);
          notices := notices + pauseNotices;
          later := now + Sum(chunks);
        }
        callCount := 1;
        resetTime := Some(later);
        if hasCallback {
          notices := notices + [PauseOver];
        }
      }
    }

    /** `get_status` at time `now`: a read-only view of the counters. A time of
        0 counts as unset, as Python's truthiness test in the source has it. */
    function GetStatus(now: int): (s: Status)
      reads this
      ensures s.used == callCount
      ensures s.remaining == Max(maxCalls - callCount, 0)
      ensures callCount == 0 ==> s == Status(0, maxCalls, 0, 0)
      ensures 0 <= s.nextResetSeconds
      ensures resetTime.Some? && now >= resetTime.value ==> s.nextResetSeconds <= waitSeconds
      // the cycle time is the age of the current cycle, once one is open
      ensures callCount != 0 && cycleStartTime.Some? && cycleStartTime.value != 0 ==>
                s.cycleTime == now - cycleStartTime.value
      ensures cycleStartTime.None? ==> s.cycleTime == 0
    {
      if callCount == 0 then Status(0, maxCalls, 0, 0)
      else
        var nextReset :=
          if resetTime.Some? && resetTime.value != 0 then Max(waitSeconds - (now - resetTime.value), 0) else 0;
        var cycleTime :=
          if cycleStartTime.Some? && cycleStartTime.value != 0 then now - cycleStartTime.value else 0;
        Status(callCount, Max(maxCalls - callCount, 0), nextReset, cycleTime)
    }

    /** `estimate_time`: one second per request plus one full pause for every
        complete cycle. The source divides by `max_calls`, so a quota of 0
        raises for any positive request count. */
    function EstimateTime(totalRequests: int): (r: int)
      requires totalRequests <= 0 || maxCalls >= 1
      ensures totalRequests <= 0 ==> r == 0
      ensures totalRequests > 0 ==> r >= totalRequests
    {
      if totalRequests <= 0 then 0
      else
        var fullCycles := totalRequests / maxCalls;
        var pauseTime := if fullCycles > 0 then fullCycles * waitSeconds else 0;
        totalRequests + pauseTime
    }

    /** A larger batch is never estimated to take less time. */
    lemma EstimateMonotone(m: int, n: int)
      requires maxCalls >= 1 && m <= n
      ensures EstimateTime(m) <= EstimateTime(n)
    {
      if m > 0 {
        DivMonotone(m, n, maxCalls);
        MulLeft(m / maxCalls, n / maxCalls, waitSeconds);
      }
    }

    /** The estimate for `n` requests is never below what `n` calls from a
        fresh limiter actually wait: one second each, plus a full
        `waitSeconds` for every call that is over the quota. */
    lemma EstimateCoversPauses(n: nat)
      requires maxCalls >= 1 && n >= 1
      ensures EstimateTime(n) >= n + Pauses(0, n, maxCalls) * waitSeconds
    {
      PausesClosedForm(n, maxCalls);
      DivMonotone(n - 1, n, maxCalls);
      MulLeft(Pauses(0, n, maxCalls), n / maxCalls, waitSeconds);
    }
  }
}
