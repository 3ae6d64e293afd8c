/**
 The native-memory leak alarm of the watchdog: after a reset it lets two checks pass, takes
 the next one as baseline, and fires when three consecutive checks exceed it by 400 MB.
 */
module LeakAlarm {
  import opened Optional

  const CHECK_INTERVAL_MS := 30000
  const LEAK_THRESHOLD_MB := 400
  const MIN_UPTIME_S := 120
  const CONSECUTIVE_REQUIRED := 3
  const GRACE_CHECKS := 2
  const MAX_REPORTABLE_DRIFT_MS := 60000
  const SUPPRESS_TICKS_AFTER_WAKE := 5
  const EXTREME_GROWTH_MB := 600

  /** One counted check: whether it consumes a reset request, and the native memory it measures. */
  datatype Check = Check(reset: bool, memory: int)

  datatype Alarm = Alarm(baseline: Option<int>, fired: bool, above: nat, grace: nat)

  const INITIAL := Alarm(None, false, 0, 0)

  function Reset(a: Alarm, c: Check): Alarm {
    if c.reset then Alarm(None, false, 0, GRACE_CHECKS) else a
  }

  /** The variables after one counted check. */
  function Step(a: Alarm, c: Check): Alarm {
    var r := Reset(a, c);
    if r.grace > 0 then r.(grace := r.grace - 1)
    else
      var base := if r.baseline.Some? then r.baseline.value else c.memory;
      if c.memory - base > LEAK_THRESHOLD_MB && !r.fired then
        r.(baseline := Some(base), above := r.above + 1, fired := r.above + 1 >= CONSECUTIVE_REQUIRED)
      else
        r.(baseline := Some(base), above := 0)
  }

  /** The check is the one that raises the alarm. */
  predicate Raises(a: Alarm, c: Check) {
    !Reset(a, c).fired && Step(a, c).fired
  }

  function After(checks: seq<Check>): Alarm {
    if checks == [] then INITIAL else Step(After(checks[..|checks| - 1]), checks[|checks| - 1])
  }

  // ----- which ticks are counted

  /** When the last tick and the last check were, and how many ticks are still to be skipped. */
  datatype Clock = Clock(lastTick: int, suppress: nat, lastCheck: int)

  /** A tick after a long sleep, or one of those after it, is not looked at. */
  predicate SkipsAt(c: Clock, checkMs: int, now: int) {
    now - c.lastTick - checkMs > MAX_REPORTABLE_DRIFT_MS || c.suppress > 0
  }

  /** A tick is counted when it is not skipped, an interval has passed and the process is warm. */
  predicate CountsAt(c: Clock, checkMs: int, now: int, uptime: int) {
    !SkipsAt(c, checkMs, now) && now - c.lastCheck >= CHECK_INTERVAL_MS && uptime >= MIN_UPTIME_S
  }

  function ClockAfter(c: Clock, checkMs: int, now: int): Clock {
    Clock(now,
          if now - c.lastTick - checkMs > MAX_REPORTABLE_DRIFT_MS then SUPPRESS_TICKS_AFTER_WAKE
          else if c.suppress > 0 then c.suppress - 1 else 0,
          if !SkipsAt(c, checkMs, now) && now - c.lastCheck >= CHECK_INTERVAL_MS then now else c.lastCheck)
  }

  /** The clock after ticks at the given readings, starting from `start`. */
  ghost function ClockBy(start: int, checkMs: int, ticks: seq<int>): Clock {
    if ticks == [] then Clock(start, 0, 0)
    else ClockAfter(ClockBy(start, checkMs, ticks[..|ticks| - 1]), checkMs, ticks[|ticks| - 1])
  }

  /** The time from one tick to the next exceeds the interval by more than a minute. */
  ghost predicate LongSleep(start: int, checkMs: int, ticks: seq<int>, k: nat)
    requires k < |ticks|
  {
    ticks[k] - (if k == 0 then start else ticks[k - 1]) > checkMs + 60000
  }

  /** What the number of ticks to skip says: how long ago the last long sleep was. */
  ghost predicate SuppressMeans(start: int, checkMs: int, ticks: seq<int>, suppress: nat) {
    && suppress <= 5
    && (suppress > 0 ==> |ticks| + suppress >= 6 && LongSleep(start, checkMs, ticks, |ticks| + suppress - 6))
    && forall k :: 0 <= k < |ticks| && |ticks| + suppress - 6 < k ==> !LongSleep(start, checkMs, ticks, k)
  }

  lemma ClockSnoc(start: int, checkMs: int, ticks: seq<int>, n: nat)
    requires n < |ticks|
    ensures ClockBy(start, checkMs, ticks[..n + 1]) == ClockAfter(ClockBy(start, checkMs, ticks[..n]), checkMs, ticks[n])
  {
    assert ticks[..n + 1][..n] == ticks[..n];
  }

  lemma {:induction false} SuppressIs(start: int, checkMs: int, ticks: seq<int>)
    ensures ClockBy(start, checkMs, ticks).lastTick == if ticks == [] then start else ticks[|ticks| - 1]
    ensures SuppressMeans(start, checkMs, ticks, ClockBy(start, checkMs, ticks).suppress)
    decreases |ticks|
  {
    if ticks != [] {
      var n := |ticks| - 1;
      var front := ticks[..n];
      SuppressIs(start, checkMs, front);
      assert forall k :: 0 <= k < n ==> (LongSleep(start, checkMs, front, k) <==> LongSleep(start, checkMs, ticks, k));
    }
  }

  /** Skipped are exactly the ticks after a long sleep and the five ticks that follow one. */
  lemma SkippedExactly(start: int, checkMs: int, ticks: seq<int>, n: nat)
    requires n < |ticks|
    ensures SkipsAt(ClockBy(start, checkMs, ticks[..n]), checkMs, ticks[n]) <==>
      exists k :: 0 <= k <= n <= k + 5 && LongSleep(start, checkMs, ticks, k)
  {
    var front := ticks[..n];
    SuppressIs(start, checkMs, front);
    assert forall k :: 0 <= k < n ==> (LongSleep(start, checkMs, front, k) <==> LongSleep(start, checkMs, ticks, k));
    var c := ClockBy(start, checkMs, front);
    hide ClockBy;
    assert ticks[n] - c.lastTick - checkMs > MAX_REPORTABLE_DRIFT_MS <==> LongSleep(start, checkMs, ticks, n);
    if c.suppress > 0 {
      var k := n + c.suppress - 6;
      assert LongSleep(start, checkMs, ticks, k) && n <= k + 5;
    }
  }

  lemma {:induction false} CheckWasATick(start: int, checkMs: int, ticks: seq<int>, m: nat, n: nat)
    requires m < n <= |ticks| && (forall i, j :: 0 <= i < j < |ticks| ==> ticks[i] <= ticks[j])
    requires ClockBy(start, checkMs, ticks[..m + 1]).lastCheck == ticks[m]
    ensures ClockBy(start, checkMs, ticks[..n]).lastCheck >= ticks[m]
    decreases n
  {
    if n > m + 1 {
      CheckWasATick(start, checkMs, ticks, m, n - 1);
      ClockSnoc(start, checkMs, ticks, n - 1);
      hide ClockBy;
    }
  }

  /** With a clock that does not step back, counted ticks are at least half a minute apart, and all of a warm process. */
  lemma CountedAreApart(start: int, checkMs: int, ticks: seq<int>, m: nat, warm: int, n: nat, uptime: int)
    requires m < n < |ticks| && (forall i, j :: 0 <= i < j < |ticks| ==> ticks[i] <= ticks[j])
    requires CountsAt(ClockBy(start, checkMs, ticks[..m]), checkMs, ticks[m], warm)
    requires CountsAt(ClockBy(start, checkMs, ticks[..n]), checkMs, ticks[n], uptime)
    ensures ticks[n] - ticks[m] >= 30000 && warm >= 120 && uptime >= 120
  {
    ClockSnoc(start, checkMs, ticks, m);
    CheckWasATick(start, checkMs, ticks, m, n);
    hide ClockBy;
  }

  // ----- the watchdog object

  datatype Report = Quiet | Suppressed | Filed(growth: int)

  /** What the report decision looks at: open sessions, and the browser's memory if it is alive. */
  datatype Surroundings = Surroundings(sessions: nat, browserAlive: bool)

  class Watchdog {
    const checkMs: int
    var lastTick: int
    var suppressTicks: nat
    var lastCheck: int
    var resetRequested: bool
    var baseline: Option<int>
    var alertFired: bool
    var consecutiveAbove: nat
    var graceRemaining: nat
    /** The counted checks so far. */
    ghost var checks: seq<Check>

    ghost predicate Valid()
      reads this
    {
      Alarm(baseline, alertFired, consecutiveAbove, graceRemaining) == After(checks)
    }

    constructor (checkMs: int, now: int)
      ensures Valid() && checks == [] && !resetRequested && Time() == Clock(now, 0, 0) && this.checkMs == checkMs
    {
      this.checkMs := checkMs;
      lastTick, suppressTicks, lastCheck, resetRequested := now, 0, 0, false;
      baseline, alertFired, consecutiveAbove, graceRemaining := None, false, 0, 0;
      checks := [];
    }

    method RequestReset()
      requires Valid()
      modifies this`resetRequested
      ensures Valid() && resetRequested
    {
      resetRequested := true;
    }

    ghost function Time(): Clock
      reads this
    {
      Clock(lastTick, suppressTicks, lastCheck)
    }

    ghost predicate Counts(now: int, uptime: int)
      reads this
    {
      CountsAt(Time(), checkMs, now, uptime)
    }

    /** What a due alarm becomes: held back when nothing is open and the growth is not extreme. */
    static function Decision(growth: int, around: Surroundings): Report {
      if around.sessions == 0 && !around.browserAlive && growth < EXTREME_GROWTH_MB then Suppressed else Filed(growth)
    }

    /**
     One tick. Only counted ticks extend the history, and the outcome is decided by the
     history alone: nothing unless the alarm is due at this check, and otherwise the decision
     on the growth over the baseline check.
     */
    method Tick(now: int, uptime: int, memory: int, around: Surroundings) returns (report: Report)
      requires Valid()
      modifies this
      ensures Valid()
      ensures checks == if old(Counts(now, uptime)) then old(checks) + [Check(old(resetRequested), memory)] else old(checks)
      ensures old(Counts(now, uptime)) ==> !resetRequested
      ensures !old(Counts(now, uptime)) ==> resetRequested == old(resetRequested)
      ensures report.Quiet? <==> !(old(Counts(now, uptime)) && Due(checks, |checks| - 1))
      ensures !report.Quiet? ==>
        var growth := memory - checks[Base(checks, |checks| - 1)].memory;
        report == if around.sessions > 0 || around.browserAlive || growth >= EXTREME_GROWTH_MB then Filed(growth) else Suppressed
      ensures Time() == ClockAfter(old(Time()), checkMs, now)
    {
      report := Quiet;
      var drift := now - lastTick - checkMs;
      lastTick := now;
      if drift > MAX_REPORTABLE_DRIFT_MS {
        suppressTicks := SUPPRESS_TICKS_AFTER_WAKE;
        return;
      }
      if suppressTicks > 0 {
        suppressTicks := suppressTicks - 1;
        return;
      }
      if now - lastCheck >= CHECK_INTERVAL_MS {
        lastCheck := now;
        if uptime >= MIN_UPTIME_S {
          report := RunCheck(memory, around);
          hide After, Third, LastReset, Streak;
          ghost var n := |checks| - 1;
          assert checks[..n] == old(checks) && checks[..n + 1] == checks;
          RaisedExactlyWhenDue(checks, n);
          AlwaysReflects(checks, n);
          if Due(checks, n) {
            BaselineWhenDue(checks, n);
          }
        }
      }
    }

    method RunCheck(memory: int, around: Surroundings) returns (report: Report)
      requires Valid()
      modifies this
      ensures Valid() && checks == old(checks) + [Check(old(resetRequested), memory)] && !resetRequested
      ensures Raises(old(After(checks)), Check(old(resetRequested), memory)) ==>
        baseline.Some? && report == Decision(memory - baseline.value, around)
      ensures !Raises(old(After(checks)), Check(old(resetRequested), memory)) ==> report == Quiet
      ensures Time() == old(Time())
    {
      report := Quiet;
      ghost var c := Check(resetRequested, memory);
      assert (checks + [c])[..|checks|] == checks;
      checks := checks + [c];
      if resetRequested {
        baseline := None;
        alertFired := false;
        consecutiveAbove := 0;
        graceRemaining := GRACE_CHECKS;
        resetRequested := false;
      }
      if graceRemaining > 0 {
        graceRemaining := graceRemaining - 1;
        return;
      }
      if baseline.None? {
        baseline := Some(memory);
      }
      var growth := memory - baseline.value;
      if growth > LEAK_THRESHOLD_MB && !alertFired {
        consecutiveAbove := consecutiveAbove + 1;
        if consecutiveAbove >= CONSECUTIVE_REQUIRED {
          alertFired := true;
          return Decision(growth, around);
        }
      } else {
        consecutiveAbove := 0;
      }
    }
  }

  // ----- when the alarm should fire, read off the whole history

  /** Index of the latest check up to `n` that consumed a reset, or -1. */
  ghost function LastReset(checks: seq<Check>, n: nat): (r: int)
    requires n < |checks|
    ensures -1 <= r <= n && (r >= 0 ==> checks[r].reset)
    ensures forall i :: r < i <= n ==> !checks[i].reset
  {
    if checks[n].reset then n else if n == 0 then -1 else LastReset(checks, n - 1)
  }

  /** Index of the check whose memory is the baseline at `n`. */
  ghost function Base(checks: seq<Check>, n: nat): nat
    requires n < |checks|
  {
    var r := LastReset(checks, n);
    if r < 0 then 0 else r + GRACE_CHECKS
  }

  ghost predicate Above(checks: seq<Check>, i: nat, base: nat)
    requires base <= i < |checks|
  {
    checks[i].memory - checks[base].memory > LEAK_THRESHOLD_MB
  }

  /** The check at `n` and the two before it all exceed the same baseline. */
  ghost predicate Third(checks: seq<Check>, n: nat)
    requires n < |checks|
  {
    var b := Base(checks, n);
    b + 2 < n && Above(checks, n - 2, b) && Above(checks, n - 1, b) && Above(checks, n, b)
  }

  /** The alarm is due at `n`: three in a row, for the first time since the last reset. */
  ghost predicate Due(checks: seq<Check>, n: nat)
    requires n < |checks|
  {
    Third(checks, n) && forall m :: LastReset(checks, n) <= m < n && 0 <= m ==> !Third(checks, m)
  }

  // ----- the variables against the history

  /** How many checks up to `n` exceed the baseline without a break. */
  ghost function Streak(checks: seq<Check>, n: int, base: nat): nat
    requires n < |checks|
    decreases n - base
  {
    if n <= base then 0 else if Above(checks, n, base) then 1 + Streak(checks, n - 1, base) else 0
  }

  ghost predicate FiredBy(checks: seq<Check>, n: nat)
    requires n < |checks|
  {
    exists m :: LastReset(checks, n) <= m <= n && 0 <= m && Third(checks, m)
  }

  lemma StreakOfThree(checks: seq<Check>, n: nat)
    requires n < |checks|
    ensures Third(checks, n) <==> Streak(checks, n, Base(checks, n)) >= 3
  {
    var b := Base(checks, n);
    if n > b && Above(checks, n, b) && n - 1 > b && Above(checks, n - 1, b) && n - 2 > b {
      assert Streak(checks, n, b) >= 3 <==> Streak(checks, n - 2, b) >= 1;
    }
  }

  /** What the variables hold after the first `n + 1` checks. */
  ghost predicate Reflects(a: Alarm, checks: seq<Check>, n: nat)
    requires n < |checks|
  {
    var b := Base(checks, n);
    if n < b then a == Alarm(None, false, 0, b - 1 - n)
    else
      && a.grace == 0 && a.baseline == Some(checks[b].memory)
      && a.fired == FiredBy(checks, n)
      && (!a.fired ==> a.above == Streak(checks, n, b))
  }

  /** Within one stretch between resets the baseline stays, and earlier thirds stay visible. */
  lemma StretchStep(checks: seq<Check>, n: nat)
    requires n + 1 < |checks| && !checks[n + 1].reset
    ensures LastReset(checks, n + 1) == LastReset(checks, n) && Base(checks, n + 1) == Base(checks, n)
    ensures FiredBy(checks, n + 1) <==> FiredBy(checks, n) || Third(checks, n + 1)
  {
    if Third(checks, n + 1) {
      assert FiredBy(checks, n + 1);
    }
  }

  lemma NothingBeforeTheBaseline(checks: seq<Check>, n: nat)
    requires n < |checks| && n <= Base(checks, n) + 2
    ensures !FiredBy(checks, n)
  {
    forall m | LastReset(checks, n) <= m <= n && 0 <= m ensures !Third(checks, m) {
      SameStretch(checks, m, n);
    }
  }

  lemma {:induction false} SameStretch(checks: seq<Check>, m: nat, n: nat)
    requires m <= n < |checks| && LastResetOrStart(checks, n) <= m
    ensures LastReset(checks, m) == LastReset(checks, n)
    decreases n - m
  {
    if m < n {
      SameStretch(checks, m, n - 1);
    }
  }

  ghost function LastResetOrStart(checks: seq<Check>, n: nat): nat
    requires n < |checks|
  {
    if LastReset(checks, n) < 0 then 0 else LastReset(checks, n)
  }

  lemma {:induction false} FirstReflects(checks: seq<Check>)
    requires checks != []
    ensures Reflects(Step(INITIAL, checks[0]), checks, 0)
    ensures !Third(checks, 0)
  {
    NothingBeforeTheBaseline(checks, 0);
  }

  lemma {:induction false} StepReflects(a: Alarm, checks: seq<Check>, n: nat)
    requires n + 1 < |checks| && Reflects(a, checks, n)
    ensures Reflects(Step(a, checks[n + 1]), checks, n + 1)
  {
    var c := checks[n + 1];
    if c.reset {
      assert LastReset(checks, n + 1) == n + 1;
    } else {
      StretchStep(checks, n);
      StreakOfThree(checks, n + 1);
      var b := Base(checks, n);
      if n + 1 <= b {
        NothingBeforeTheBaseline(checks, n + 1);
      } else {
        assert Above(checks, n + 1, b) <==> c.memory - checks[b].memory > LEAK_THRESHOLD_MB;
      }
    }
  }

  lemma {:induction false} AlwaysReflects(checks: seq<Check>, n: nat)
    requires n < |checks|
    ensures Reflects(After(checks[..n + 1]), checks, n)
    decreases n
  {
    assert checks[..n + 1][..n] == checks[..n];
    if n == 0 {
      FirstReflects(checks);
    } else {
      AlwaysReflects(checks, n - 1);
      StepReflects(After(checks[..n]), checks, n - 1);
    }
  }

  /** On every history the alarm is raised at exactly the checks where it is due. */
  lemma RaisedExactlyWhenDue(checks: seq<Check>, n: nat)
    requires n < |checks|
    ensures Raises(After(checks[..n]), checks[n]) <==> Due(checks, n)
  {
    assert checks[..n + 1][..n] == checks[..n];
    AlwaysReflects(checks, n);
    hide After;
    if n <= Base(checks, n) + 2 {
      NothingBeforeTheBaseline(checks, n);
      NotDueEarly(checks, n);
    } else {
      AlwaysReflects(checks, n - 1);
      DueLater(checks, n);
    }
  }

  lemma NotDueEarly(checks: seq<Check>, n: nat)
    requires n < |checks| && !FiredBy(checks, n)
    ensures !Due(checks, n)
  {
  }

  lemma DueLater(checks: seq<Check>, n: nat)
    requires n < |checks| && Base(checks, n) + 2 < n
    ensures !checks[n].reset && Base(checks, n - 1) == Base(checks, n)
    ensures Due(checks, n) <==> !FiredBy(checks, n - 1) && FiredBy(checks, n)
  {
    StretchStep(checks, n - 1);
    hide Above, Third;
  }

  lemma BaselineWhenDue(checks: seq<Check>, n: nat)
    requires n < |checks| && Reflects(After(checks[..n + 1]), checks, n) && Due(checks, n)
    ensures After(checks[..n + 1]).baseline == Some(checks[Base(checks, n)].memory)
  {
  }

  /** At most one alarm between resets. */
  lemma OncePerStretch(checks: seq<Check>, m: nat, n: nat)
    requires m < n < |checks| && Due(checks, m) && Due(checks, n)
    ensures exists i :: m < i <= n && checks[i].reset
  {
    var r := LastReset(checks, n);
    assert Third(checks, m);
    assert m < r <= n && checks[r].reset;
  }

  /** No alarm before the sixth check counted from the one that consumes a reset. */
  lemma NeverEarly(checks: seq<Check>, r: nat, n: nat)
    requires r <= n < |checks| && checks[r].reset && Due(checks, n)
    ensures n >= r + 5
  {
  }
}
