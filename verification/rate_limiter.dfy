/**
 The sliding-window limiter on crash reports. It keeps only the grants of the last hour,
 dropping older ones at every call.
 */
module RateLimiting {

  const HOUR_MS := 3600000

  /** The entries newer than one hour before `now`. */
  function Recent(ts: seq<int>, now: int): seq<int> {
    if ts == [] then []
    else
      var front := Recent(ts[..|ts| - 1], now);
      if ts[|ts| - 1] > now - HOUR_MS then front + [ts[|ts| - 1]] else front
  }

  /** Everything granted so far, and the pruned list the limiter holds. */
  datatype History = History(grants: seq<int>, kept: seq<int>)

  /** The history after calls at the given clock readings, for a limit of `max` per hour. */
  function After(max: int, calls: seq<int>): History {
    if calls == [] then History([], [])
    else
      var h := After(max, calls[..|calls| - 1]);
      var now := calls[|calls| - 1];
      var kept := Recent(h.kept, now);
      if |kept| >= max then History(h.grants, kept) else History(h.grants + [now], kept + [now])
  }

  /** The limiter object. */
  class RateLimiter {
    const maxPerHour: int
    var timestamps: seq<int>
    /** The clock readings of all calls so far. */
    ghost var calls: seq<int>

    ghost predicate Valid()
      reads this
    {
      timestamps == After(maxPerHour, calls).kept
    }

    constructor (maxPerHour: int)
      ensures Valid() && this.maxPerHour == maxPerHour && calls == []
    {
      this.maxPerHour := maxPerHour;
      timestamps, calls := [], [];
    }

    /** Grants exactly when the history says so. */
    method TryAcquire(now: int) returns (ok: bool)
      requires Valid()
      modifies this
      ensures Valid() && calls == old(calls) + [now]
      ensures After(maxPerHour, calls).grants ==
        old(After(maxPerHour, calls).grants) + if ok then [now] else []
    {
      assert (calls + [now])[..|calls|] == calls;
      calls := calls + [now];
      timestamps := Filter(timestamps, now);
      if |timestamps| >= maxPerHour {
        return false;
      }
      timestamps := timestamps + [now];
      return true;
    }

    static method Filter(ts: seq<int>, now: int) returns (r: seq<int>)
      ensures r == Recent(ts, now)
    {
      r := [];
      for i := 0 to |ts|
        invariant r == Recent(ts[..i], now)
      {
        assert ts[..i + 1][..i] == ts[..i];
        if ts[i] > now - HOUR_MS {
          r := r + [ts[i]];
        }
      }
      assert ts[..|ts|] == ts;
    }
  }

  // ----- what pruning forgets

  lemma {:induction false} RecentAppend(ts: seq<int>, t: int, now: int)
    ensures Recent(ts + [t], now) == Recent(ts, now) + if t > now - HOUR_MS then [t] else []
  {
    assert (ts + [t])[..|ts|] == ts;
  }

  /** A grant with the latest clock reading since it was made. */
  datatype Mark = Mark(at: int, peak: int)

  ghost function Raise(ms: seq<Mark>, now: int): seq<Mark> {
    if ms == [] then []
    else
      var m := ms[|ms| - 1];
      Raise(ms[..|ms| - 1], now) + [Mark(m.at, if m.peak < now then now else m.peak)]
  }

  ghost function Marks(max: int, calls: seq<int>): seq<Mark> {
    if calls == [] then []
    else
      var front, now := calls[..|calls| - 1], calls[|calls| - 1];
      var ms := Raise(Marks(max, front), now);
      if |Recent(After(max, front).kept, now)| >= max then ms else ms + [Mark(now, now)]
  }

  ghost function Ats(ms: seq<Mark>): seq<int> {
    if ms == [] then [] else Ats(ms[..|ms| - 1]) + [ms[|ms| - 1].at]
  }

  /** The grants never more than an hour behind a later reading. */
  ghost function Survivors(ms: seq<Mark>): seq<int> {
    if ms == [] then []
    else
      var m := ms[|ms| - 1];
      Survivors(ms[..|ms| - 1]) + if m.at > m.peak - HOUR_MS then [m.at] else []
  }

  lemma {:induction false} RaisePrunes(ms: seq<Mark>, now: int)
    ensures Ats(Raise(ms, now)) == Ats(ms)
    ensures Survivors(Raise(ms, now)) == Recent(Survivors(ms), now)
  {
    if ms != [] {
      var front, m := ms[..|ms| - 1], ms[|ms| - 1];
      RaisePrunes(front, now);
      var r := Raise(ms, now);
      assert r[..|r| - 1] == Raise(front, now);
      assert Survivors(front) + [] == Survivors(front);
      if m.at > m.peak - HOUR_MS {
        RecentAppend(Survivors(front), m.at, now);
      }
    }
  }

  /** The marks describe both the whole history and the pruned list. */
  lemma {:induction false} MarksDescribe(max: int, calls: seq<int>)
    ensures Ats(Marks(max, calls)) == After(max, calls).grants
    ensures Survivors(Marks(max, calls)) == After(max, calls).kept
    decreases |calls|
  {
    if calls != [] {
      var front, now := calls[..|calls| - 1], calls[|calls| - 1];
      MarksDescribe(max, front);
      RaisePrunes(Marks(max, front), now);
      var ms := Raise(Marks(max, front), now);
      assert (ms + [Mark(now, now)])[..|ms|] == ms;
    }
  }

  /** How many grants still count at `now` although an earlier reading was an hour past them. */
  ghost function Forgotten(ms: seq<Mark>, now: int): nat {
    if ms == [] then 0
    else
      var m := ms[|ms| - 1];
      Forgotten(ms[..|ms| - 1], now) + if now - HOUR_MS < m.at <= m.peak - HOUR_MS then 1 else 0
  }

  lemma {:induction false} ForgottenIsMissing(ms: seq<Mark>, now: int)
    ensures |Recent(Ats(ms), now)| == |Recent(Survivors(ms), now)| + Forgotten(ms, now)
    ensures Forgotten(ms, now) == 0 ==> Recent(Survivors(ms), now) == Recent(Ats(ms), now)
  {
    hide Recent;
    if ms == [] {
      assert Ats(ms) == Survivors(ms);
    } else {
      var front, m := ms[..|ms| - 1], ms[|ms| - 1];
      ForgottenIsMissing(front, now);
      RecentAppend(Ats(front), m.at, now);
      assert Survivors(front) + [] == Survivors(front);
      if m.at > m.peak - HOUR_MS {
        RecentAppend(Survivors(front), m.at, now);
      }
    }
  }

  /** The pruned list answers like the whole history exactly when nothing that still counts was forgotten. */
  lemma KeptIsEnough(max: int, calls: seq<int>, now: int)
    ensures
      var h, forgotten := After(max, calls), Forgotten(Marks(max, calls), now);
      && |Recent(h.grants, now)| == |Recent(h.kept, now)| + forgotten
      && (Recent(h.kept, now) == Recent(h.grants, now) <==> forgotten == 0)
  {
    hide Recent, Forgotten, After, Marks;
    MarksDescribe(max, calls);
    ForgottenIsMissing(Marks(max, calls), now);
  }

  /** There is room in the pruned list only because of what was forgotten. */
  ghost predicate Misjudges(max: int, calls: seq<int>, now: int) {
    var room := max - |Recent(After(max, calls).kept, now)|;
    0 < room <= Forgotten(Marks(max, calls), now)
  }

  /** What a limiter that remembers every grant has granted after one more call. */
  ghost function Remembering(max: int, grants: seq<int>, now: int): seq<int> {
    if |Recent(grants, now)| < max then grants + [now] else grants
  }

  /** A decision is the one of a limiter that remembers every grant exactly when it does not misjudge. */
  lemma DecisionIsExact(max: int, calls: seq<int>, now: int)
    ensures After(max, calls + [now]).grants == Remembering(max, After(max, calls).grants, now)
      <==> !Misjudges(max, calls, now)
  {
    KeptIsEnough(max, calls, now);
    hide Recent, Forgotten, Marks;
    assert (calls + [now])[..|calls|] == calls;
  }

  ghost function AllRemembered(max: int, calls: seq<int>): seq<int> {
    if calls == [] then []
    else Remembering(max, AllRemembered(max, calls[..|calls| - 1]), calls[|calls| - 1])
  }

  /** After every call of the run the limiter has granted what one with full memory has. */
  ghost predicate AgreesThroughout(max: int, calls: seq<int>) {
    && After(max, calls).grants == AllRemembered(max, calls)
    && (calls != [] ==> AgreesThroughout(max, calls[..|calls| - 1]))
  }

  ghost predicate NeverMisjudges(max: int, calls: seq<int>) {
    calls != [] ==>
      && NeverMisjudges(max, calls[..|calls| - 1])
      && !Misjudges(max, calls[..|calls| - 1], calls[|calls| - 1])
  }

  /** A whole run is that of a limiter with full memory exactly when no call of it misjudges. */
  lemma {:induction false} RunIsExact(max: int, calls: seq<int>)
    ensures AgreesThroughout(max, calls) <==> NeverMisjudges(max, calls)
    decreases |calls|
  {
    hide Misjudges, Remembering, After;
    if calls == [] {
      assert After(max, calls).grants == [] by { EmptyHistory(max); }
    } else {
      var front, now := calls[..|calls| - 1], calls[|calls| - 1];
      assert calls == front + [now];
      RunIsExact(max, front);
      DecisionIsExact(max, front, now);
    }
  }

  lemma EmptyHistory(max: int)
    ensures After(max, []) == History([], [])
  {
  }

  ghost predicate NonDecreasing(calls: seq<int>) {
    forall i, j :: 0 <= i < j < |calls| ==> calls[i] <= calls[j]
  }

  lemma {:induction false} RaisedPeaks(ms: seq<Mark>, now: int, bound: int)
    requires now <= bound && forall i :: 0 <= i < |ms| ==> ms[i].peak <= bound
    ensures forall i :: 0 <= i < |Raise(ms, now)| ==> Raise(ms, now)[i].peak <= bound
  {
    if ms != [] {
      RaisedPeaks(ms[..|ms| - 1], now, bound);
    }
  }

  lemma {:induction false} PeaksAreReadings(max: int, calls: seq<int>, bound: int)
    requires forall i :: 0 <= i < |calls| ==> calls[i] <= bound
    ensures forall i :: 0 <= i < |Marks(max, calls)| ==> Marks(max, calls)[i].peak <= bound
    decreases |calls|
  {
    if calls != [] {
      var front, now := calls[..|calls| - 1], calls[|calls| - 1];
      PeaksAreReadings(max, front, bound);
      RaisedPeaks(Marks(max, front), now, bound);
    }
  }

  lemma {:induction false} NothingForgotten(ms: seq<Mark>, now: int)
    requires forall i :: 0 <= i < |ms| ==> ms[i].peak <= now
    ensures Forgotten(ms, now) == 0
  {
    if ms != [] {
      NothingForgotten(ms[..|ms| - 1], now);
    }
  }

  /** A clock that does not step back never makes the limiter forget, so it never misjudges. */
  lemma {:induction false} SteadyClockNeverMisjudges(max: int, calls: seq<int>)
    requires NonDecreasing(calls)
    ensures NeverMisjudges(max, calls)
    decreases |calls|
  {
    hide Marks, Recent, After;
    if calls != [] {
      var front, now := calls[..|calls| - 1], calls[|calls| - 1];
      assert NonDecreasing(front) && forall i :: 0 <= i < |front| ==> front[i] <= now;
      SteadyClockNeverMisjudges(max, front);
      PeaksAreReadings(max, front, now);
      NothingForgotten(Marks(max, front), now);
    }
  }

  // ----- the window bound

  /** How many entries lie in the half-open hour starting at `from`. */
  ghost function InHour(ts: seq<int>, from: int): nat {
    if ts == [] then 0
    else InHour(ts[..|ts| - 1], from) + if from <= ts[|ts| - 1] < from + HOUR_MS then 1 else 0
  }

  lemma {:induction false} InHourAtMostRecent(ts: seq<int>, from: int, now: int)
    requires from <= now < from + HOUR_MS
    ensures InHour(ts, from) <= |Recent(ts, now)|
  {
    if ts != [] {
      InHourAtMostRecent(ts[..|ts| - 1], from, now);
    }
  }

  lemma InHourAppend(ts: seq<int>, t: int, from: int)
    ensures InHour(ts + [t], from) == InHour(ts, from) + if from <= t < from + HOUR_MS then 1 else 0
  {
    assert (ts + [t])[..|ts|] == ts;
  }

  function Cap(max: int): nat {
    if max < 0 then 0 else max
  }

  ghost predicate EveryHourWithin(max: int, grants: seq<int>) {
    forall from: int :: InHour(grants, from) <= Cap(max)
  }

  /** A call is granted although some hour it falls into is full. */
  ghost predicate Crowds(max: int, calls: seq<int>, now: int) {
    && |Recent(After(max, calls).kept, now)| < max
    && exists from: int :: from <= now < from + HOUR_MS && InHour(After(max, calls).grants, from) >= max
  }

  ghost predicate NeverCrowds(max: int, calls: seq<int>) {
    calls != [] ==>
      && NeverCrowds(max, calls[..|calls| - 1])
      && !Crowds(max, calls[..|calls| - 1], calls[|calls| - 1])
  }

  lemma {:induction false} AfterAppend(max: int, calls: seq<int>, now: int)
    ensures After(max, calls + [now]) ==
      var h := After(max, calls);
      var kept := Recent(h.kept, now);
      if |kept| >= max then History(h.grants, kept) else History(h.grants + [now], kept + [now])
  {
    assert (calls + [now])[..|calls|] == calls;
  }

  /** One more call keeps every hour within the allowance exactly when it does not crowd. */
  lemma HourBoundStep(max: int, calls: seq<int>, now: int)
    requires EveryHourWithin(max, After(max, calls).grants)
    ensures EveryHourWithin(max, After(max, calls + [now]).grants) <==> !Crowds(max, calls, now)
  {
    AfterAppend(max, calls, now);
    hide Recent, After;
    var before, after := After(max, calls).grants, After(max, calls + [now]).grants;
    if after != before {
      forall from: int
        ensures InHour(after, from) == InHour(before, from) + if from <= now < from + HOUR_MS then 1 else 0
      {
        InHourAppend(before, now, from);
      }
      hide InHour;
      assert EveryHourWithin(max, after) ==> !Crowds(max, calls, now) by {
        forall from: int | from <= now < from + HOUR_MS && EveryHourWithin(max, after)
          ensures InHour(before, from) < max
        {
          assert InHour(after, from) <= Cap(max);
        }
      }
    }
  }

  lemma GrantsGrow(max: int, calls: seq<int>, now: int, from: int)
    ensures InHour(After(max, calls).grants, from) <= InHour(After(max, calls + [now]).grants, from)
  {
    AfterAppend(max, calls, now);
    InHourAppend(After(max, calls).grants, now, from);
  }

  /** Over every run, all hours are within the allowance exactly when no call is granted into a full hour. */
  lemma {:induction false} HourBoundExactly(max: int, calls: seq<int>)
    ensures EveryHourWithin(max, After(max, calls).grants) <==> NeverCrowds(max, calls)
    decreases |calls|
  {
    hide After, Crowds;
    if calls == [] {
      EmptyHistory(max);
    } else {
      var front, now := calls[..|calls| - 1], calls[|calls| - 1];
      assert calls == front + [now];
      HourBoundExactly(max, front);
      if EveryHourWithin(max, After(max, front).grants) {
        HourBoundStep(max, front, now);
      } else {
        var from: int :| InHour(After(max, front).grants, from) > Cap(max);
        GrantsGrow(max, front, now, from);
      }
    }
  }

  /** A limiter that judges like one with full memory never crowds an hour. */
  lemma {:induction false} ExactRunNeverCrowds(max: int, calls: seq<int>)
    requires NeverMisjudges(max, calls)
    ensures NeverCrowds(max, calls)
    decreases |calls|
  {
    hide After, Recent, Marks;
    if calls != [] {
      var front, now := calls[..|calls| - 1], calls[|calls| - 1];
      ExactRunNeverCrowds(max, front);
      KeptIsEnough(max, front, now);
      forall from: int | from <= now < from + HOUR_MS
        ensures InHour(After(max, front).grants, from) <= |Recent(After(max, front).grants, now)|
      {
        InHourAtMostRecent(After(max, front).grants, from, now);
      }
      hide InHour, Forgotten;
    }
  }

  /** In particular over every run with a clock that does not step back. */
  lemma HourBoundWithSteadyClock(max: int, calls: seq<int>, from: int)
    requires NonDecreasing(calls)
    ensures InHour(After(max, calls).grants, from) <= Cap(max)
  {
    SteadyClockNeverMisjudges(max, calls);
    ExactRunNeverCrowds(max, calls);
    HourBoundExactly(max, calls);
  }

  /** A clock set back after an idle stretch lets a third grant into an hour limited to two. */
  lemma ClockSetBackBreaksTheBound()
    ensures InHour(After(2, [0] + [360000] + [7200000] + [720000]).grants, 0) == 3
  {
    var a, b, c := [0], [0] + [360000], [0] + [360000] + [7200000];
    assert [] + [0] == a;
    AfterAppend(2, [], 0);
    assert After(2, a) == History([0], [0]);
    AfterAppend(2, a, 360000);
    RecentAppend([], 0, 360000);
    assert After(2, b).grants == [0] + [360000] && After(2, b).kept == [0] + [360000];
    AfterAppend(2, b, 7200000);
    RecentAppend([0], 360000, 7200000);
    RecentAppend([], 0, 7200000);
    assert After(2, c) == History([0] + [360000] + [7200000], [7200000]);
    AfterAppend(2, c, 720000);
    RecentAppend([], 7200000, 720000);
    InHourAppend([0] + [360000] + [7200000], 720000, 0);
    InHourAppend([0] + [360000], 7200000, 0);
    InHourAppend([0], 360000, 0);
    InHourAppend([], 0, 0);
  }
}
