/**
 The memory-pressure cleanup: one pass classifies all tabs, sorts the idle ones and closes
 a bounded number of them. The pass is taken without interleaving; tabs are listed in the
 order in which sessions, groups and tabs are iterated.
 */
module PressureCleanup {
  import opened Optional

  /** A tab with the observation the previous passes left on it. */
  datatype Tab = Tab(user: string, group: string, id: string, toolCalls: int, seenAt: Option<int>, seenCalls: int)

  datatype Lock = Lock(active: bool, queued: nat)

  predicate Busy(locks: map<string, Lock>, id: string) {
    id in locks && (locks[id].active || locks[id].queued > 0)
  }

  function NonNegative(n: int): (r: nat)
    ensures n <= r && (r == n || r == 0)
  {
    if n < 0 then 0 else n
  }

  function TabsOf(tabs: seq<Tab>, user: string): nat {
    if tabs == [] then 0
    else TabsOf(tabs[..|tabs| - 1], user) + if tabs[|tabs| - 1].user == user then 1 else 0
  }

  ghost predicate DistinctIds(tabs: seq<Tab>) {
    forall i, j :: 0 <= i < j < |tabs| ==> tabs[i].id != tabs[j].id
  }

  // ----- classification

  datatype Verdict = Locked | SessionMinimum | FirstObservation | RecentlyActive | BelowMinIdle | Idle

  /** `count` is the number of tabs of the tab's session. */
  function Judge(t: Tab, busy: bool, count: nat, now: int, minIdle: nat, minTabs: nat): Verdict {
    if busy then Locked
    else if count <= minTabs then SessionMinimum
    else if t.seenAt.None? then FirstObservation
    else if t.seenCalls != t.toolCalls then RecentlyActive
    else if now - t.seenAt.value < minIdle then BelowMinIdle
    else Idle
  }

  /** A tab seen for the first time, or used since, gets a new observation. */
  function Observed(t: Tab, v: Verdict, now: int): Tab {
    if v.FirstObservation? || v.RecentlyActive? then t.(seenAt := Some(now), seenCalls := t.toolCalls) else t
  }

  datatype Item = Item(user: string, group: string, id: string, idle: int, toolCalls: int)

  function ItemOf(t: Tab, now: int): Item {
    Item(t.user, t.group, t.id, if t.seenAt.Some? then now - t.seenAt.value else 0, t.toolCalls)
  }

  /** The input of one classification: the tabs, their locks and the clamped options. */
  datatype Pass = Pass(tabs: seq<Tab>, locks: map<string, Lock>, now: int, minIdle: nat, minTabs: nat)

  function VerdictAt(p: Pass, i: nat): Verdict
    requires i < |p.tabs|
  {
    Judge(p.tabs[i], Busy(p.locks, p.tabs[i].id), TabsOf(p.tabs, p.tabs[i].user), p.now, p.minIdle, p.minTabs)
  }

  ghost function Tally(p: Pass, n: nat, v: Verdict): nat
    requires n <= |p.tabs|
  {
    if n == 0 then 0 else Tally(p, n - 1, v) + if VerdictAt(p, n - 1) == v then 1 else 0
  }

  ghost function Candidates(p: Pass, n: nat): seq<Item>
    requires n <= |p.tabs|
  {
    if n == 0 then []
    else Candidates(p, n - 1) + if VerdictAt(p, n - 1) == Idle then [ItemOf(p.tabs[n - 1], p.now)] else []
  }

  ghost function AfterScan(p: Pass, n: nat): (r: seq<Tab>)
    requires n <= |p.tabs|
    ensures |r| == n && forall i :: 0 <= i < n ==> r[i] == Observed(p.tabs[i], VerdictAt(p, i), p.now)
  {
    if n == 0 then [] else AfterScan(p, n - 1) + [Observed(p.tabs[n - 1], VerdictAt(p, n - 1), p.now)]
  }

  datatype Preserved = Preserved(locked: nat, sessionMinimum: nat, firstObservation: nat, recentlyActive: nat, belowMinIdle: nat)

  function Total(c: Preserved): nat {
    c.locked + c.sessionMinimum + c.firstObservation + c.recentlyActive + c.belowMinIdle
  }

  /** Counts one verdict; an idle tab is not preserved. */
  function Note(c: Preserved, v: Verdict): Preserved {
    match v
    case Locked => c.(locked := c.locked + 1)
    case SessionMinimum => c.(sessionMinimum := c.sessionMinimum + 1)
    case FirstObservation => c.(firstObservation := c.firstObservation + 1)
    case RecentlyActive => c.(recentlyActive := c.recentlyActive + 1)
    case BelowMinIdle => c.(belowMinIdle := c.belowMinIdle + 1)
    case Idle => c
  }

  ghost function PreservedOf(p: Pass, n: nat): Preserved
    requires n <= |p.tabs|
  {
    if n == 0 then Preserved(0, 0, 0, 0, 0) else Note(PreservedOf(p, n - 1), VerdictAt(p, n - 1))
  }

  /** Every tab is either preserved for one reason, and counted under it, or a candidate. */
  lemma {:induction false} Partition(p: Pass, n: nat)
    requires n <= |p.tabs|
    ensures Total(PreservedOf(p, n)) + |Candidates(p, n)| == n
    ensures PreservedOf(p, n) == Preserved(
      Tally(p, n, Locked), Tally(p, n, SessionMinimum), Tally(p, n, FirstObservation),
      Tally(p, n, RecentlyActive), Tally(p, n, BelowMinIdle))
  {
    hide VerdictAt, Note, ItemOf;
    if n > 0 {
      Partition(p, n - 1);
      NoteCounts(PreservedOf(p, n - 1), VerdictAt(p, n - 1));
      forall v ensures Tally(p, n, v) == Tally(p, n - 1, v) + if VerdictAt(p, n - 1) == v then 1 else 0 {
        TallySnoc(p, n, v);
      }
      assert PreservedOf(p, n) == Note(PreservedOf(p, n - 1), VerdictAt(p, n - 1));
      assert |Candidates(p, n)| == |Candidates(p, n - 1)| + if VerdictAt(p, n - 1) == Idle then 1 else 0;
      hide Tally, PreservedOf, Candidates, Total;
    }
  }

  lemma TallySnoc(p: Pass, n: nat, v: Verdict)
    requires 0 < n <= |p.tabs|
    ensures Tally(p, n, v) == Tally(p, n - 1, v) + if VerdictAt(p, n - 1) == v then 1 else 0
  {
  }

  lemma NoteCounts(c: Preserved, v: Verdict)
    ensures Note(c, v) == Preserved(
      c.locked + (if v == Locked then 1 else 0),
      c.sessionMinimum + (if v == SessionMinimum then 1 else 0),
      c.firstObservation + (if v == FirstObservation then 1 else 0),
      c.recentlyActive + (if v == RecentlyActive then 1 else 0),
      c.belowMinIdle + (if v == BelowMinIdle then 1 else 0))
    ensures Total(Note(c, v)) == Total(c) + if v == Idle then 0 else 1
  {
  }

  /** Candidates are exactly the idle tabs, in order and without repeats. */
  lemma {:induction false} CandidatesHold(p: Pass, n: nat, c: Item)
    requires n <= |p.tabs|
    ensures c in Candidates(p, n) <==> exists i :: 0 <= i < n && VerdictAt(p, i) == Idle && c == ItemOf(p.tabs[i], p.now)
  {
    hide VerdictAt, ItemOf;
    if n > 0 {
      CandidatesHold(p, n - 1, c);
    }
  }

  // What the verdicts mean, in terms of the tab alone.

  /** Somebody holds the tab's lock or waits for it. */
  ghost predicate IsUsed(locks: map<string, Lock>, id: string) {
    id in locks && !(locks[id].active == false && locks[id].queued == 0)
  }

  /** Nobody uses the tab and its session has tabs to spare. */
  ghost predicate Spare(p: Pass, i: nat)
    requires i < |p.tabs|
  {
    !IsUsed(p.locks, p.tabs[i].id) && TabsOf(p.tabs, p.tabs[i].user) > p.minTabs
  }

  /** An earlier pass observed the tab, it was not used since, and that is long enough ago. */
  ghost predicate IdleLongEnough(p: Pass, t: Tab) {
    t.seenAt.Some? && t.seenCalls == t.toolCalls && p.now - t.seenAt.value >= p.minIdle
  }

  /** The item names the tab and says how long it has been idle. */
  ghost predicate Describes(p: Pass, c: Item, t: Tab) {
    && c.user == t.user && c.group == t.group && c.id == t.id && c.toolCalls == t.toolCalls
    && t.seenAt.Some? && c.idle == p.now - t.seenAt.value
  }

  /** The candidates come exactly from the spare tabs that are idle long enough, with their idle time. */
  lemma CandidatesAre(p: Pass, c: Item)
    ensures c in Candidates(p, |p.tabs|) <==>
      exists i :: 0 <= i < |p.tabs| && Spare(p, i) && IdleLongEnough(p, p.tabs[i]) && Describes(p, c, p.tabs[i])
  {
    CandidatesHold(p, |p.tabs|, c);
    forall i | 0 <= i < |p.tabs| ensures VerdictAt(p, i) == Idle <==> Spare(p, i) && IdleLongEnough(p, p.tabs[i]) {
      VerdictsMean(p, i);
    }
    hide Candidates, VerdictAt, Spare, TabsOf, IsUsed;
  }

  /** Each reason to keep a tab, and the reason to take it, said of the tab itself. */
  ghost predicate Meant(p: Pass, i: nat)
    requires i < |p.tabs|
  {
    var t, v := p.tabs[i], VerdictAt(p, i);
    && (v == Locked <==> IsUsed(p.locks, t.id))
    && (v == SessionMinimum <==> !IsUsed(p.locks, t.id) && TabsOf(p.tabs, t.user) <= p.minTabs)
    && (v == FirstObservation <==> Spare(p, i) && t.seenAt.None?)
    && (v == RecentlyActive <==> Spare(p, i) && t.seenAt.Some? && t.seenCalls != t.toolCalls)
    && (v == BelowMinIdle <==>
          Spare(p, i) && t.seenAt.Some? && t.seenCalls == t.toolCalls && p.now - t.seenAt.value < p.minIdle)
    && (v == Idle <==> Spare(p, i) && IdleLongEnough(p, t))
  }

  lemma VerdictsMean(p: Pass, i: nat)
    requires i < |p.tabs|
    ensures Meant(p, i)
  {
  }

  /** A spare tab that was never observed, or was used since, is observed now; all others keep their observation. */
  lemma ObservationsAre(p: Pass, i: nat)
    requires i < |p.tabs|
    ensures
      var t, t' := p.tabs[i], AfterScan(p, |p.tabs|)[i];
      && (t'.user, t'.group, t'.id, t'.toolCalls) == (t.user, t.group, t.id, t.toolCalls)
      && if Spare(p, i) && (t.seenAt.None? || t.seenCalls != t.toolCalls)
         then t'.seenAt == Some(p.now) && t'.seenCalls == t.toolCalls
         else t'.seenAt == t.seenAt && t'.seenCalls == t.seenCalls
  {
    hide AfterScan;
    VerdictsMean(p, i);
    hide VerdictAt, Spare;
  }

  // What an observation stands for, over any number of passes.

  /** Between two passes tabs are used, closed and opened; observations stay on them. */
  ghost predicate Evolves(before: seq<Tab>, after: seq<Tab>) {
    forall t :: t in after && t.seenAt.Some? ==>
      exists u :: u in before && u.id == t.id && u.seenAt == t.seenAt && u.seenCalls == t.seenCalls
  }

  /** Passes one after the other, starting with tabs that were never observed. */
  ghost predicate InSuccession(ps: seq<Pass>) {
    && (ps != [] ==> forall t :: t in ps[0].tabs ==> t.seenAt.None?)
    && forall k :: 0 < k < |ps| ==> Evolves(AfterScan(ps[k - 1], |ps[k - 1].tabs|), ps[k].tabs)
  }

  /** The `k`-th pass found the tab spare, with that many calls, at that time. */
  ghost predicate SeenBy(p: Pass, id: string, calls: int, at: int) {
    p.now == at && exists i :: 0 <= i < |p.tabs| && p.tabs[i].id == id && p.tabs[i].toolCalls == calls && Spare(p, i)
  }

  lemma {:induction false} ObservationComesFrom(ps: seq<Pass>, n: nat, t: Tab) returns (k: nat)
    requires InSuccession(ps) && n < |ps| && t in ps[n].tabs && t.seenAt.Some?
    ensures k < n && SeenBy(ps[k], t.id, t.seenCalls, t.seenAt.value)
  {
    hide AfterScan, Spare;
    assert n > 0;
    var p := ps[n - 1];
    var scanned := AfterScan(p, |p.tabs|);
    assert Evolves(scanned, ps[n].tabs);
    var u :| u in scanned && u.id == t.id && u.seenAt == t.seenAt && u.seenCalls == t.seenCalls;
    var i :| 0 <= i < |scanned| && scanned[i] == u;
    ObservationsAre(p, i);
    if Spare(p, i) && (p.tabs[i].seenAt.None? || p.tabs[i].seenCalls != p.tabs[i].toolCalls) {
      k := n - 1;
    } else {
      k := ObservationComesFrom(ps, n - 1, p.tabs[i]);
    }
  }

  /**
   Whatever happens between the passes, a tab that a pass may close was found spare by an
   earlier pass with the same number of calls, at least the minimal idle time before.
   */
  lemma CandidateWasWatched(ps: seq<Pass>, n: nat, c: Item) returns (k: nat)
    requires InSuccession(ps) && n < |ps| && c in Candidates(ps[n], |ps[n].tabs|)
    ensures k < n && SeenBy(ps[k], c.id, c.toolCalls, ps[k].now)
    ensures c.idle == ps[n].now - ps[k].now >= ps[n].minIdle
  {
    hide Candidates, Spare, AfterScan;
    CandidatesAre(ps[n], c);
    var i :| 0 <= i < |ps[n].tabs| && Spare(ps[n], i) && IdleLongEnough(ps[n], ps[n].tabs[i])
      && Describes(ps[n], c, ps[n].tabs[i]);
    k := ObservationComesFrom(ps, n, ps[n].tabs[i]);
  }

  /** How many tabs satisfy the predicate on positions. */
  ghost function CountTabs(n: nat, wanted: int -> bool): nat {
    if n == 0 then 0 else CountTabs(n - 1, wanted) + if wanted(n - 1) then 1 else 0
  }

  lemma {:induction false} TallyCounts(p: Pass, n: nat, v: Verdict, wanted: int -> bool)
    requires n <= |p.tabs| && forall i :: 0 <= i < n ==> (wanted(i) <==> VerdictAt(p, i) == v)
    ensures Tally(p, n, v) == CountTabs(n, wanted)
  {
    hide VerdictAt;
    if n > 0 {
      TallyCounts(p, n - 1, v, wanted);
    }
  }

  /** The five counters count exactly the tabs kept for their reason. */
  lemma CountersAre(p: Pass)
    ensures
      var n, c := |p.tabs|, PreservedOf(p, |p.tabs|);
      && c.locked == CountTabs(n, i => 0 <= i < n && IsUsed(p.locks, p.tabs[i].id))
      && c.sessionMinimum == CountTabs(n, i => 0 <= i < n && !IsUsed(p.locks, p.tabs[i].id)
           && TabsOf(p.tabs, p.tabs[i].user) <= p.minTabs)
      && c.firstObservation == CountTabs(n, i => 0 <= i < n && Spare(p, i) && p.tabs[i].seenAt.None?)
      && c.recentlyActive == CountTabs(n, i => 0 <= i < n && Spare(p, i) && p.tabs[i].seenAt.Some?
           && p.tabs[i].seenCalls != p.tabs[i].toolCalls)
      && c.belowMinIdle == CountTabs(n, i => 0 <= i < n && Spare(p, i) && p.tabs[i].seenAt.Some?
           && p.tabs[i].seenCalls == p.tabs[i].toolCalls && p.now - p.tabs[i].seenAt.value < p.minIdle)
  {
    var n := |p.tabs|;
    Partition(p, n);
    forall i | 0 <= i < n ensures Meant(p, i) {
      VerdictsMean(p, i);
    }
    hide VerdictAt, Spare, TabsOf, IsUsed, Tally, PreservedOf, CountTabs;
    TallyCounts(p, n, Locked, i => 0 <= i < n && IsUsed(p.locks, p.tabs[i].id));
    TallyCounts(p, n, SessionMinimum, i => 0 <= i < n && !IsUsed(p.locks, p.tabs[i].id)
      && TabsOf(p.tabs, p.tabs[i].user) <= p.minTabs);
    TallyCounts(p, n, FirstObservation, i => 0 <= i < n && Spare(p, i) && p.tabs[i].seenAt.None?);
    TallyCounts(p, n, RecentlyActive, i => 0 <= i < n && Spare(p, i) && p.tabs[i].seenAt.Some?
      && p.tabs[i].seenCalls != p.tabs[i].toolCalls);
    TallyCounts(p, n, BelowMinIdle, i => 0 <= i < n && Spare(p, i) && p.tabs[i].seenAt.Some?
      && p.tabs[i].seenCalls == p.tabs[i].toolCalls && p.now - p.tabs[i].seenAt.value < p.minIdle);
  }

  ghost predicate DistinctItems(items: seq<Item>) {
    forall i, j :: 0 <= i < j < |items| ==> items[i].id != items[j].id
  }

  lemma {:induction false} CandidatesDistinct(p: Pass, n: nat)
    requires n <= |p.tabs| && DistinctIds(p.tabs)
    ensures DistinctItems(Candidates(p, n))
  {
    hide VerdictAt;
    if n > 0 {
      CandidatesDistinct(p, n - 1);
      var front, last := Candidates(p, n - 1), ItemOf(p.tabs[n - 1], p.now);
      forall i | 0 <= i < |front| ensures front[i].id != last.id {
        CandidatesHold(p, n - 1, front[i]);
        assert front[i] in front;
      }
    }
  }

  // ----- sorting

  /** Longer idle first; among equals, the less used first. */
  predicate Before(a: Item, b: Item) {
    a.idle > b.idle || (a.idle == b.idle && a.toolCalls <= b.toolCalls)
  }

  /** Idle times fall, and among equal ones the numbers of calls rise. */
  ghost predicate InOrder(a: Item, b: Item) {
    a.idle >= b.idle && (a.idle == b.idle ==> a.toolCalls <= b.toolCalls)
  }

  ghost predicate Ordered(items: seq<Item>) {
    forall i, j :: 0 <= i < j < |items| ==> InOrder(items[i], items[j])
  }

  ghost predicate SameItems(a: seq<Item>, b: seq<Item>) {
    |a| == |b| && forall x :: x in a <==> x in b
  }

  /** Inserts an item behind all that come before it or tie with it. */
  method Insert(sorted: seq<Item>, x: Item) returns (r: seq<Item>)
    requires Ordered(sorted) && DistinctItems(sorted + [x])
    ensures Ordered(r) && DistinctItems(r) && SameItems(r, sorted + [x])
  {
    var k := 0;
    while k < |sorted| && Before(sorted[k], x)
      invariant 0 <= k <= |sorted|
      invariant forall i :: 0 <= i < k ==> InOrder(sorted[i], x)
    {
      k := k + 1;
    }
    r := sorted[..k] + [x] + sorted[k..];
    InsertedAt(sorted, x, k, r);
  }

  lemma InsertedAt(sorted: seq<Item>, x: Item, k: nat, r: seq<Item>)
    requires Ordered(sorted) && DistinctItems(sorted + [x]) && k <= |sorted| && r == sorted[..k] + [x] + sorted[k..]
    requires forall i :: 0 <= i < k ==> InOrder(sorted[i], x)
    requires k < |sorted| ==> !InOrder(sorted[k], x)
    ensures Ordered(r) && DistinctItems(r) && SameItems(r, sorted + [x])
  {
    assert forall i :: 0 <= i < |r| ==> r[i] == if i < k then sorted[i] else if i == k then x else sorted[i - 1];
    var s := sorted + [x];
    assert forall i :: 0 <= i < |sorted| ==> s[i] == sorted[i];
    assert s[|sorted|] == x;
    forall i | k <= i < |sorted| ensures InOrder(x, sorted[i]) {
      assert i > k ==> InOrder(sorted[k], sorted[i]);
    }
  }

  method SortByIdleness(items: seq<Item>) returns (sorted: seq<Item>)
    requires DistinctItems(items)
    ensures Ordered(sorted) && DistinctItems(sorted) && SameItems(sorted, items)
  {
    sorted := [];
    for i := 0 to |items|
      invariant Ordered(sorted) && DistinctItems(sorted) && SameItems(sorted, items[..i])
    {
      NewItem(sorted, items, i);
      ghost var before := sorted;
      sorted := Insert(sorted, items[i]);
      SameSnoc(before, items, i);
      hide SameItems;
      SameTrans(sorted, before + [items[i]], items[..i + 1]);
    }
    assert items[..|items|] == items;
  }

  lemma NewItem(sorted: seq<Item>, items: seq<Item>, i: nat)
    requires i < |items| && DistinctItems(items) && DistinctItems(sorted) && SameItems(sorted, items[..i])
    ensures DistinctItems(sorted + [items[i]])
  {
    forall k | 0 <= k < |sorted| ensures sorted[k].id != items[i].id {
      assert sorted[k] in items[..i];
    }
  }

  lemma SameSnoc(a: seq<Item>, items: seq<Item>, i: nat)
    requires i < |items| && SameItems(a, items[..i])
    ensures SameItems(a + [items[i]], items[..i + 1])
  {
    assert items[..i + 1] == items[..i] + [items[i]];
  }

  lemma SameTrans(a: seq<Item>, b: seq<Item>, c: seq<Item>)
    requires SameItems(a, b) && SameItems(b, c)
    ensures SameItems(a, c)
  {
  }

  // ----- closing

  function Without(tabs: seq<Tab>, id: string): seq<Tab> {
    if tabs == [] then []
    else
      var front := Without(tabs[..|tabs| - 1], id);
      if tabs[|tabs| - 1].id == id then front else front + [tabs[|tabs| - 1]]
  }

  predicate Holds(tabs: seq<Tab>, c: Item) {
    exists i :: 0 <= i < |tabs| && tabs[i].id == c.id && tabs[i].user == c.user
  }

  lemma {:induction false} WithoutKeeps(tabs: seq<Tab>, id: string, t: Tab)
    ensures t in Without(tabs, id) <==> t in tabs && t.id != id
  {
    if tabs != [] {
      var n := |tabs| - 1;
      WithoutKeeps(tabs[..n], id, t);
      assert tabs == tabs[..n] + [tabs[n]];
    }
  }

  lemma {:induction false} WithoutAbsent(tabs: seq<Tab>, id: string)
    requires forall i :: 0 <= i < |tabs| ==> tabs[i].id != id
    ensures Without(tabs, id) == tabs
  {
    if tabs != [] {
      WithoutAbsent(tabs[..|tabs| - 1], id);
    }
  }

  lemma {:induction false} WithoutDistinct(tabs: seq<Tab>, id: string)
    requires DistinctIds(tabs)
    ensures DistinctIds(Without(tabs, id))
  {
    if tabs != [] {
      var n := |tabs| - 1;
      WithoutDistinct(tabs[..n], id);
      var front := Without(tabs[..n], id);
      forall i | 0 <= i < |front| ensures front[i].id != tabs[n].id {
        WithoutKeeps(tabs[..n], id, front[i]);
        assert front[i] in front;
      }
    }
  }

  /** Removing one tab lowers the count of its own session by one, and of no other. */
  lemma {:induction false} WithoutCount(tabs: seq<Tab>, c: Item, user: string)
    requires DistinctIds(tabs) && Holds(tabs, c)
    ensures TabsOf(Without(tabs, c.id), user) == TabsOf(tabs, user) - if user == c.user then 1 else 0
  {
    var n := |tabs| - 1;
    var front, last := tabs[..n], tabs[n];
    if last.id == c.id {
      WithoutAbsent(front, c.id);
    } else {
      assert Holds(front, c) by {
        var i :| 0 <= i < |tabs| && tabs[i].id == c.id && tabs[i].user == c.user;
        assert front[i] == tabs[i];
      }
      WithoutCount(front, c, user);
      var r := Without(front, c.id) + [last];
      assert r[..|r| - 1] == Without(front, c.id);
    }
  }

  lemma HoldsOthers(tabs: seq<Tab>, c: Item, id: string)
    requires Holds(tabs, c) && c.id != id
    ensures Holds(Without(tabs, id), c)
  {
    var i :| 0 <= i < |tabs| && tabs[i].id == c.id && tabs[i].user == c.user;
    assert tabs[i] in tabs;
    WithoutKeeps(tabs, id, tabs[i]);
    assert tabs[i] in Without(tabs, id);
  }

  ghost function ClosedOf(closed: seq<Item>, user: string): nat {
    if closed == [] then 0
    else ClosedOf(closed[..|closed| - 1], user) + if closed[|closed| - 1].user == user then 1 else 0
  }

  /** What closing the first items has left: tabs, counts and the reason for each item kept. */
  ghost predicate Closing(start: seq<Tab>, tabs: seq<Tab>, closed: seq<Item>, minTabs: nat) {
    && DistinctIds(tabs)
    && (forall t :: t in tabs ==> t in start)
    && (forall t :: t in start && t !in tabs ==> exists c :: c in closed && c.id == t.id)
    && (forall u :: TabsOf(tabs, u) + ClosedOf(closed, u) == TabsOf(start, u))
    && (forall u :: TabsOf(tabs, u) >= minTabs || TabsOf(tabs, u) == TabsOf(start, u))
  }

  lemma ClosedSnoc(closed: seq<Item>, c: Item, user: string)
    ensures ClosedOf(closed + [c], user) == ClosedOf(closed, user) + if c.user == user then 1 else 0
  {
    assert (closed + [c])[..|closed|] == closed;
  }

  lemma CloseStep(start: seq<Tab>, tabs: seq<Tab>, closed: seq<Item>, minTabs: nat, c: Item)
    requires Closing(start, tabs, closed, minTabs) && Holds(tabs, c) && TabsOf(tabs, c.user) > minTabs
    ensures Closing(start, Without(tabs, c.id), closed + [c], minTabs)
  {
    var tabs', closed' := Without(tabs, c.id), closed + [c];
    hide Without, TabsOf, ClosedOf;
    WithoutDistinct(tabs, c.id);
    forall u ensures TabsOf(tabs', u) == TabsOf(tabs, u) - (if u == c.user then 1 else 0)
      ensures ClosedOf(closed', u) == ClosedOf(closed, u) + if c.user == u then 1 else 0
    {
      WithoutCount(tabs, c, u);
      ClosedSnoc(closed, c, u);
    }
    forall t | t in tabs' ensures t in start {
      WithoutKeeps(tabs, c.id, t);
    }
    forall t | t in start && t !in tabs' ensures exists d :: d in closed' && d.id == t.id {
      WithoutKeeps(tabs, c.id, t);
      if t in tabs {
        assert c in closed';
      } else {
        var d :| d in closed && d.id == t.id;
        assert d in closed';
      }
    }
  }

  // ----- the pass over the server's state

  /** A count for each session that has tabs. */
  ghost predicate CountsTabs(counts: map<string, nat>, tabs: seq<Tab>) {
    forall u :: TabsOf(tabs, u) == if u in counts then counts[u] else 0
  }

  function CountFor(counts: map<string, nat>, user: string): nat {
    if user in counts then counts[user] else 0
  }

  method CountSessions(tabs: seq<Tab>) returns (counts: map<string, nat>)
    ensures CountsTabs(counts, tabs)
  {
    counts := map[];
    for i := 0 to |tabs|
      invariant CountsTabs(counts, tabs[..i])
    {
      assert tabs[..i + 1][..i] == tabs[..i];
      counts := counts[tabs[i].user := CountFor(counts, tabs[i].user) + 1];
    }
    assert tabs[..|tabs|] == tabs;
  }

  /** A session with the keys of its groups; `leased` when some page creation holds a lease on it. */
  datatype SessionInfo = SessionInfo(user: string, groups: seq<string>, leased: bool)

  datatype Report = Report(preserved: Preserved, candidates: seq<Item>, selected: seq<Item>, closed: seq<Item>)

  class Server {
    var tabs: seq<Tab>
    var locks: map<string, Lock>
    var sessions: seq<SessionInfo>

    constructor (tabs: seq<Tab>, locks: map<string, Lock>, sessions: seq<SessionInfo>)
      ensures this.tabs == tabs && this.locks == locks && this.sessions == sessions
    {
      this.tabs, this.locks, this.sessions := tabs, locks, sessions;
    }

    /** Classifies all tabs and refreshes their observations. */
    method Scan(now: int, minIdle: nat, minTabs: nat, counts: map<string, nat>)
      returns (preserved: Preserved, candidates: seq<Item>)
      requires CountsTabs(counts, tabs)
      modifies this`tabs
      ensures
        var p := Pass(old(tabs), locks, now, minIdle, minTabs);
        && tabs == AfterScan(p, |p.tabs|) && candidates == Candidates(p, |p.tabs|)
        && preserved == PreservedOf(p, |p.tabs|)
    {
      hide Judge, TabsOf, Note, Observed, ItemOf, Busy, CountsTabs, Scanned;
      ghost var p := Pass(tabs, locks, now, minIdle, minTabs);
      preserved, candidates := Preserved(0, 0, 0, 0, 0), [];
      ScanStarts(p);
      for i := 0 to |tabs|
        invariant |tabs| == |p.tabs| && Scanned(p, i, tabs, preserved, candidates)
      {
        var t := tabs[i];
        var v := Judge(t, Busy(locks, t.id), CountFor(counts, t.user), now, minIdle, minTabs);
        ScanStep(p, i, counts, tabs, preserved, candidates);
        preserved := Note(preserved, v);
        if v == Idle {
          candidates := candidates + [ItemOf(t, now)];
        }
        tabs := tabs[i := Observed(t, v, now)];
      }
      ScanEnds(p, tabs, preserved, candidates);
    }

    /** Closes the selected tabs one by one, checking each session's minimum and each lock again. */
    method CloseSelected(selected: seq<Item>, minTabs: nat, counts0: map<string, nat>) returns (closed: seq<Item>)
      requires CountsTabs(counts0, tabs) && DistinctIds(tabs) && DistinctItems(selected)
      requires Ready(selected, 0, tabs, locks)
      modifies this`tabs, this`locks
      ensures Closing(old(tabs), tabs, closed, minTabs)
      ensures |closed| <= |selected| && AllIn(closed, selected)
      ensures Explained(selected, |selected|, tabs, closed, minTabs)
      ensures LocksOfClosed(locks, old(locks), closed)
    {
      hide TabsOf, Without, Busy, InProgress, CountsTabs, Holds, Closing;
      var counts := counts0;
      closed := [];
      StartClosing(tabs, locks, counts, minTabs, selected);
      for i := 0 to |selected|
        invariant InProgress(old(tabs), old(locks), selected, minTabs, i, tabs, locks, counts, closed)
      {
        var c := selected[i];
        Facts(old(tabs), old(locks), selected, minTabs, i, tabs, locks, counts, closed);
        if Holds(tabs, c) && CountFor(counts, c.user) > minTabs && !Busy(locks, c.id) {
          CloseOne(old(tabs), old(locks), selected, minTabs, i, tabs, locks, counts, closed);
          tabs := Without(tabs, c.id);
          counts := SetCount(counts, c.user, CountFor(counts, c.user) - 1);
          locks := locks - {c.id};
          closed := closed + [c];
        } else {
          KeepOne(old(tabs), old(locks), selected, minTabs, i, tabs, locks, counts, closed);
        }
      }
      AllProcessed(old(tabs), old(locks), selected, minTabs, tabs, locks, counts, closed);
    }

    /** Drops the groups without tabs and, if asked to, the sessions without groups and leases. */
    method DropEmpty(closeEmptySessions: bool)
      modifies this`sessions
      ensures sessions == KeptSessions(old(sessions), tabs, closeEmptySessions)
    {
      var kept: seq<SessionInfo> := [];
      for i := 0 to |sessions|
        invariant sessions == old(sessions) && kept == KeptSessions(sessions[..i], tabs, closeEmptySessions)
      {
        assert sessions[..i + 1][..i] == sessions[..i];
        var groups := InUse(sessions[i].groups, sessions[i].user);
        if !(closeEmptySessions && |groups| == 0 && !sessions[i].leased) {
          kept := kept + [sessions[i].(groups := groups)];
        }
      }
      assert sessions[..|sessions|] == sessions;
      sessions := kept;
    }

    /** The groups of the session that still have a tab. */
    method InUse(groups: seq<string>, user: string) returns (r: seq<string>)
      ensures r == GroupsInUse(groups, user, tabs)
    {
      r := [];
      for i := 0 to |groups|
        invariant r == GroupsInUse(groups[..i], user, tabs)
      {
        assert groups[..i + 1][..i] == groups[..i];
        if HasTab(tabs, user, groups[i]) {
          r := r + [groups[i]];
        }
      }
      assert groups[..|groups|] == groups;
    }

    /**
     The whole pass. All tabs are preserved or candidates; at most the allowed number of the
     longest idle candidates is selected; a real run closes every selected tab unless its
     session is at the minimum, never a busy one, and never takes a session below the
     minimum it had room for. Afterwards a session is closed exactly when the pass may close
     sessions and this one has neither a tab nor a lease.
     */
    method Cleanup(now: int, minIdleMs: int, maxTabsToClose: int, minTabsPerSession: int, dryRun: bool, closeEmptySessions: bool)
      returns (r: Report)
      requires DistinctIds(tabs)
      modifies this
      ensures
        var p := Pass(old(tabs), old(locks), now, NonNegative(minIdleMs), NonNegative(minTabsPerSession));
        var scanned := AfterScan(p, |p.tabs|);
        && r.preserved == PreservedOf(p, |p.tabs|) && r.candidates == Candidates(p, |p.tabs|)
        && Total(r.preserved) + |r.candidates| == |p.tabs|
        && Selects(r.candidates, r.selected, NonNegative(maxTabsToClose))
        && AllIn(r.closed, r.selected) && |r.closed| <= |r.selected|
        && (forall c :: c in r.closed ==> !IsUsed(p.locks, c.id))
        && (forall u :: TabsOf(scanned, u) == TabsOf(p.tabs, u))
        && Closing(scanned, tabs, r.closed, p.minTabs)
        && LocksOfClosed(locks, p.locks, r.closed)
        && (if dryRun then r.closed == [] && tabs == scanned && sessions == old(sessions)
            else Explained(r.selected, |r.selected|, tabs, r.closed, p.minTabs))
      ensures Listed(old(tabs), old(sessions)) ==>
        && Listed(tabs, sessions)
        && forall x :: x in old(sessions) ==>
             (HasSession(sessions, x.user) <==> Stays(x, TabsOf(tabs, x.user), closeEmptySessions && !dryRun))
    {
      hide Closing, TabsOf, AfterScan, Busy, DistinctIds, Candidates, PreservedOf, DistinctItems, Ready, CountsTabs, Explained,
        LocksOfClosed, Listed, Stays, HasSession, KeptSessions;
      var minIdle, maxTabs, minTabs := NonNegative(minIdleMs), NonNegative(maxTabsToClose), NonNegative(minTabsPerSession);
      ghost var p := Pass(tabs, locks, now, minIdle, minTabs);
      var counts := CountSessions(tabs);
      var preserved, candidates := Scan(now, minIdle, minTabs, counts);
      Partition(p, |p.tabs|);
      ScanKeepsTabs(p, counts);
      CandidatesDistinct(p, |p.tabs|);
      var sorted := SortByIdleness(candidates);
      var selected := if |sorted| <= maxTabs then sorted else sorted[..maxTabs];
      PrefixSelects(candidates, sorted, maxTabs, selected);
      CandidatesAreReady(p, selected);
      var closed: seq<Item> := [];
      if !dryRun {
        closed := CloseSelected(selected, minTabs, counts);
      } else {
        NothingClosed(tabs, locks, minTabs);
      }
      if Listed(old(tabs), old(sessions)) {
        ScanKeepsListed(p, sessions);
        ClosingKeepsListed(AfterScan(p, |p.tabs|), tabs, closed, minTabs, sessions);
        SessionsAfter(sessions, tabs, closeEmptySessions);
        AllStay(sessions, tabs);
      }
      if !dryRun {
        DropEmpty(closeEmptySessions);
      }
      r := Report(preserved, candidates, selected, closed);
      ClosedWereFree(p.locks, AfterScan(p, |p.tabs|), selected, closed);
    }
  }

  // ----- groups and sessions left empty

  /** Sessions have different users, and every tab is in a group of its session. */
  ghost predicate Listed(tabs: seq<Tab>, sessions: seq<SessionInfo>) {
    && DistinctUsers(sessions)
    && forall t :: t in tabs ==> exists x :: x in sessions && x.user == t.user && t.group in x.groups
  }

  predicate HasTab(tabs: seq<Tab>, user: string, group: string) {
    exists i :: 0 <= i < |tabs| && tabs[i].user == user && tabs[i].group == group
  }

  function GroupsInUse(groups: seq<string>, user: string, tabs: seq<Tab>): seq<string> {
    if groups == [] then []
    else
      var front, last := GroupsInUse(groups[..|groups| - 1], user, tabs), groups[|groups| - 1];
      if HasTab(tabs, user, last) then front + [last] else front
  }

  function KeptSessions(sessions: seq<SessionInfo>, tabs: seq<Tab>, closeEmpty: bool): seq<SessionInfo> {
    if sessions == [] then []
    else
      var front, x := KeptSessions(sessions[..|sessions| - 1], tabs, closeEmpty), sessions[|sessions| - 1];
      var groups := GroupsInUse(x.groups, x.user, tabs);
      if closeEmpty && |groups| == 0 && !x.leased then front else front + [x.(groups := groups)]
  }

  ghost predicate HasSession(sessions: seq<SessionInfo>, user: string) {
    exists x :: x in sessions && x.user == user
  }

  /** A session stays unless empty sessions are closed and it has no tab and no lease. */
  predicate Stays(x: SessionInfo, count: nat, closeEmpty: bool) {
    !closeEmpty || count > 0 || x.leased
  }

  lemma {:induction false} GroupsInUseAre(groups: seq<string>, user: string, tabs: seq<Tab>, group: string)
    ensures group in GroupsInUse(groups, user, tabs) <==> group in groups && HasTab(tabs, user, group)
  {
    hide HasTab;
    if groups != [] {
      var n := |groups| - 1;
      GroupsInUseAre(groups[..n], user, tabs, group);
      assert groups == groups[..n] + [groups[n]];
    }
  }

  lemma {:induction false} CountedIsThere(tabs: seq<Tab>, user: string)
    ensures TabsOf(tabs, user) > 0 <==> exists t :: t in tabs && t.user == user
  {
    if tabs != [] {
      var n := |tabs| - 1;
      CountedIsThere(tabs[..n], user);
      assert tabs == tabs[..n] + [tabs[n]];
    }
  }

  /** A listed session has a group in use exactly when it has a tab. */
  lemma InUseMeansTabs(x: SessionInfo, tabs: seq<Tab>, sessions: seq<SessionInfo>)
    requires Listed(tabs, sessions) && x in sessions
    ensures |GroupsInUse(x.groups, x.user, tabs)| == 0 <==> TabsOf(tabs, x.user) == 0
  {
    var groups := GroupsInUse(x.groups, x.user, tabs);
    hide GroupsInUse, TabsOf;
    CountedIsThere(tabs, x.user);
    if TabsOf(tabs, x.user) > 0 {
      var t :| t in tabs && t.user == x.user;
      var y :| y in sessions && y.user == t.user && t.group in y.groups;
      assert y == x;
      GroupsInUseAre(x.groups, x.user, tabs, t.group);
      assert HasTab(tabs, x.user, t.group);
    }
    if |groups| > 0 {
      GroupsInUseAre(x.groups, x.user, tabs, groups[0]);
      var i :| 0 <= i < |tabs| && tabs[i].user == x.user && tabs[i].group == groups[0];
      assert tabs[i] in tabs;
    }
  }

  lemma {:induction false} KeptAre(sessions: seq<SessionInfo>, tabs: seq<Tab>, closeEmpty: bool, y: SessionInfo)
    ensures y in KeptSessions(sessions, tabs, closeEmpty) <==>
      exists x :: x in sessions && y == x.(groups := GroupsInUse(x.groups, x.user, tabs))
        && !(closeEmpty && |y.groups| == 0 && !x.leased)
  {
    hide GroupsInUse;
    if sessions != [] {
      var n := |sessions| - 1;
      KeptAre(sessions[..n], tabs, closeEmpty, y);
      assert sessions == sessions[..n] + [sessions[n]];
    }
  }

  ghost predicate DistinctUsers(sessions: seq<SessionInfo>) {
    forall i, j :: 0 <= i < j < |sessions| ==> sessions[i].user != sessions[j].user
  }

  lemma DistinctUsersSnoc(front: seq<SessionInfo>, x: SessionInfo)
    requires DistinctUsers(front) && !HasSession(front, x.user)
    ensures DistinctUsers(front + [x])
  {
    assert forall i :: 0 <= i < |front| ==> front[i] in front;
  }

  lemma {:induction false} KeptUsersDistinct(sessions: seq<SessionInfo>, tabs: seq<Tab>, closeEmpty: bool)
    requires DistinctUsers(sessions)
    ensures DistinctUsers(KeptSessions(sessions, tabs, closeEmpty))
  {
    hide GroupsInUse;
    if sessions != [] {
      var n := |sessions| - 1;
      KeptUsersDistinct(sessions[..n], tabs, closeEmpty);
      var front := KeptSessions(sessions[..n], tabs, closeEmpty);
      var last := sessions[n].(groups := GroupsInUse(sessions[n].groups, sessions[n].user, tabs));
      if HasSession(front, last.user) {
        var y :| y in front && y.user == last.user;
        KeptAre(sessions[..n], tabs, closeEmpty, y);
        assert false;
      }
      DistinctUsersSnoc(front, last);
    }
  }

  /** Exactly the sessions without tab and lease go, and the tabs that are left stay listed. */
  lemma SessionsAfter(sessions: seq<SessionInfo>, tabs: seq<Tab>, closeEmpty: bool)
    requires Listed(tabs, sessions)
    ensures Listed(tabs, KeptSessions(sessions, tabs, closeEmpty))
    ensures forall x :: x in sessions ==>
      (HasSession(KeptSessions(sessions, tabs, closeEmpty), x.user) <==> Stays(x, TabsOf(tabs, x.user), closeEmpty))
  {
    var kept := KeptSessions(sessions, tabs, closeEmpty);
    KeptUsersDistinct(sessions, tabs, closeEmpty);
    hide KeptSessions, GroupsInUse, TabsOf;
    forall x | x in sessions ensures HasSession(kept, x.user) <==> Stays(x, TabsOf(tabs, x.user), closeEmpty) {
      SessionStaysExactly(sessions, tabs, closeEmpty, x);
    }
    forall t | t in tabs ensures exists y :: y in kept && y.user == t.user && t.group in y.groups {
      var x :| x in sessions && x.user == t.user && t.group in x.groups;
      assert HasTab(tabs, x.user, t.group);
      GroupsInUseAre(x.groups, x.user, tabs, t.group);
      var y := x.(groups := GroupsInUse(x.groups, x.user, tabs));
      KeptAre(sessions, tabs, closeEmpty, y);
      assert y in kept;
    }
  }

  lemma SessionStaysExactly(sessions: seq<SessionInfo>, tabs: seq<Tab>, closeEmpty: bool, x: SessionInfo)
    requires Listed(tabs, sessions) && x in sessions
    ensures HasSession(KeptSessions(sessions, tabs, closeEmpty), x.user) <==> Stays(x, TabsOf(tabs, x.user), closeEmpty)
  {
    hide KeptSessions, GroupsInUse, TabsOf;
    var kept := KeptSessions(sessions, tabs, closeEmpty);
    InUseMeansTabs(x, tabs, sessions);
    var z := x.(groups := GroupsInUse(x.groups, x.user, tabs));
    KeptAre(sessions, tabs, closeEmpty, z);
    if HasSession(kept, x.user) {
      var y :| y in kept && y.user == x.user;
      KeptAre(sessions, tabs, closeEmpty, y);
    }
  }

  lemma AllStay(sessions: seq<SessionInfo>, tabs: seq<Tab>)
    ensures forall x :: x in sessions ==> HasSession(sessions, x.user) && Stays(x, TabsOf(tabs, x.user), false)
  {
  }

  lemma ScanKeepsListed(p: Pass, sessions: seq<SessionInfo>)
    requires Listed(p.tabs, sessions)
    ensures Listed(AfterScan(p, |p.tabs|), sessions)
  {
    hide VerdictAt;
    var scanned := AfterScan(p, |p.tabs|);
    forall t | t in scanned ensures exists x :: x in sessions && x.user == t.user && t.group in x.groups {
      var i :| 0 <= i < |scanned| && scanned[i] == t;
      assert p.tabs[i] in p.tabs;
    }
  }

  lemma ClosingKeepsListed(start: seq<Tab>, tabs: seq<Tab>, closed: seq<Item>, minTabs: nat, sessions: seq<SessionInfo>)
    requires Closing(start, tabs, closed, minTabs) && Listed(start, sessions)
    ensures Listed(tabs, sessions)
  {
    hide TabsOf, ClosedOf;
  }

  // ----- selection

  /** As many as allowed, each a candidate and at least as idle as every candidate left out. */
  ghost predicate Selects(candidates: seq<Item>, selected: seq<Item>, max: nat) {
    && |selected| == (if |candidates| <= max then |candidates| else max)
    && DistinctItems(selected) && AllIn(selected, candidates)
    && forall a, b :: a in selected && b in candidates && b !in selected ==> a.idle >= b.idle
  }

  lemma PrefixSelects(candidates: seq<Item>, sorted: seq<Item>, max: nat, selected: seq<Item>)
    requires Ordered(sorted) && DistinctItems(sorted) && SameItems(sorted, candidates)
    requires selected == if |sorted| <= max then sorted else sorted[..max]
    ensures Selects(candidates, selected, max)
  {
    assert forall x :: x in selected ==> x in sorted;
    forall a, b | a in selected && b in candidates && b !in selected ensures a.idle >= b.idle {
      var i :| 0 <= i < |selected| && selected[i] == a;
      assert b in sorted;
      var j :| 0 <= j < |sorted| && sorted[j] == b;
      assert forall k :: 0 <= k < |selected| ==> selected[k] == sorted[k];
      assert InOrder(sorted[i], sorted[j]);
    }
  }

  /** Observing changes neither identities nor sessions. */
  lemma ScanKeepsTabs(p: Pass, counts: map<string, nat>)
    requires DistinctIds(p.tabs) && CountsTabs(counts, p.tabs)
    ensures DistinctIds(AfterScan(p, |p.tabs|)) && CountsTabs(counts, AfterScan(p, |p.tabs|))
    ensures forall u :: TabsOf(AfterScan(p, |p.tabs|), u) == TabsOf(p.tabs, u)
  {
    hide VerdictAt, TabsOf;
    forall u ensures TabsOf(AfterScan(p, |p.tabs|), u) == TabsOf(p.tabs, u) {
      SameUsersSameCount(AfterScan(p, |p.tabs|), p.tabs, u);
    }
  }

  lemma {:induction false} SameUsersSameCount(a: seq<Tab>, b: seq<Tab>, user: string)
    requires |a| == |b| && forall i :: 0 <= i < |a| ==> a[i].user == b[i].user
    ensures TabsOf(a, user) == TabsOf(b, user)
    decreases |a|
  {
    if a != [] {
      SameUsersSameCount(a[..|a| - 1], b[..|b| - 1], user);
    }
  }

  lemma CandidatesAreReady(p: Pass, selected: seq<Item>)
    requires AllIn(selected, Candidates(p, |p.tabs|))
    ensures Ready(selected, 0, AfterScan(p, |p.tabs|), p.locks)
  {
    hide Candidates;
    var scanned := AfterScan(p, |p.tabs|);
    forall k | 0 <= k < |selected| ensures Holds(scanned, selected[k]) && !Busy(p.locks, selected[k].id) {
      assert selected[k] in selected;
      CandidatesHold(p, |p.tabs|, selected[k]);
      var i :| 0 <= i < |p.tabs| && VerdictAt(p, i) == Idle && selected[k] == ItemOf(p.tabs[i], p.now);
      assert scanned[i].id == selected[k].id && scanned[i].user == selected[k].user;
    }
  }

  lemma ClosedWereFree(locks: map<string, Lock>, tabs: seq<Tab>, selected: seq<Item>, closed: seq<Item>)
    requires Ready(selected, 0, tabs, locks) && AllIn(closed, selected)
    ensures forall c :: c in closed ==> !IsUsed(locks, c.id)
  {
    hide Holds;
  }

  lemma NothingClosed(tabs: seq<Tab>, locks: map<string, Lock>, minTabs: nat)
    requires DistinctIds(tabs)
    ensures Closing(tabs, tabs, [], minTabs) && LocksOfClosed(locks, locks, [])
  {
  }

  // ----- the steps of the two loops

  function SetCount(counts: map<string, nat>, user: string, n: nat): map<string, nat> {
    counts[user := n]
  }

  /** The state of the classifying loop before the `i`-th tab. */
  ghost predicate Scanned(p: Pass, i: nat, tabs: seq<Tab>, preserved: Preserved, candidates: seq<Item>) {
    && i <= |p.tabs| && tabs == AfterScan(p, i) + p.tabs[i..]
    && preserved == PreservedOf(p, i) && candidates == Candidates(p, i)
  }

  lemma ScanStarts(p: Pass)
    ensures Scanned(p, 0, p.tabs, Preserved(0, 0, 0, 0, 0), [])
  {
  }

  lemma ScanStep(p: Pass, i: nat, counts: map<string, nat>, tabs: seq<Tab>, preserved: Preserved, candidates: seq<Item>)
    requires i < |p.tabs| && CountsTabs(counts, p.tabs) && Scanned(p, i, tabs, preserved, candidates)
    ensures |tabs| == |p.tabs|
    ensures
      var t := tabs[i];
      var v := Judge(t, Busy(p.locks, t.id), CountFor(counts, t.user), p.now, p.minIdle, p.minTabs);
      Scanned(p, i + 1, tabs[i := Observed(t, v, p.now)], Note(preserved, v),
              if v == Idle then candidates + [ItemOf(t, p.now)] else candidates)
  {
    hide Judge, TabsOf, Observed, Busy, Note, ItemOf;
    var t := tabs[i];
    assert t == p.tabs[i] && TabsOf(p.tabs, t.user) == CountFor(counts, t.user);
    var v := Judge(t, Busy(p.locks, t.id), CountFor(counts, t.user), p.now, p.minIdle, p.minTabs);
    assert v == VerdictAt(p, i);
    assert AfterScan(p, i + 1) == AfterScan(p, i) + [Observed(t, v, p.now)];
    assert PreservedOf(p, i + 1) == Note(preserved, v);
    assert Candidates(p, i + 1) == if v == Idle then candidates + [ItemOf(t, p.now)] else candidates + [];
    hide VerdictAt, CountsTabs, AfterScan, PreservedOf, Candidates;
    ReplaceMiddle(AfterScan(p, i), p.tabs[i..], Observed(t, v, p.now));
    assert p.tabs[i..][1..] == p.tabs[i + 1..];
    assert candidates + [] == candidates;
  }

  lemma ReplaceMiddle(done: seq<Tab>, rest: seq<Tab>, t: Tab)
    requires rest != []
    ensures (done + rest)[|done| := t] == done + [t] + rest[1..]
  {
  }

  lemma ScanEnds(p: Pass, tabs: seq<Tab>, preserved: Preserved, candidates: seq<Item>)
    requires Scanned(p, |p.tabs|, tabs, preserved, candidates)
    ensures tabs == AfterScan(p, |p.tabs|) && candidates == Candidates(p, |p.tabs|) && preserved == PreservedOf(p, |p.tabs|)
  {
    assert p.tabs[|p.tabs|..] == [];
  }

  /** The state of the closing loop before the `i`-th item. */
  ghost predicate InProgress(start: seq<Tab>, locks0: map<string, Lock>, selected: seq<Item>, minTabs: nat, i: nat,
                             tabs: seq<Tab>, locks: map<string, Lock>, counts: map<string, nat>, closed: seq<Item>)
  {
    && i <= |selected| && DistinctItems(selected)
    && CountsTabs(counts, tabs) && Closing(start, tabs, closed, minTabs)
    && |closed| <= i && AllIn(closed, selected) && Ready(selected, i, tabs, locks)
    && Explained(selected, i, tabs, closed, minTabs) && LocksOfClosed(locks, locks0, closed)
  }

  ghost predicate AllIn(closed: seq<Item>, selected: seq<Item>) {
    forall c :: c in closed ==> c in selected
  }

  /** Items still to come are open and free. */
  ghost predicate Ready(selected: seq<Item>, i: nat, tabs: seq<Tab>, locks: map<string, Lock>) {
    forall k :: i <= k < |selected| ==> Holds(tabs, selected[k]) && !Busy(locks, selected[k].id)
  }

  /** An item passed over belongs to a session at its minimum. */
  ghost predicate Explained(selected: seq<Item>, i: nat, tabs: seq<Tab>, closed: seq<Item>, minTabs: nat)
    requires i <= |selected|
  {
    forall k :: 0 <= k < i ==> selected[k] in closed || TabsOf(tabs, selected[k].user) <= minTabs
  }

  ghost function IdsOf(items: seq<Item>): set<string> {
    set c | c in items :: c.id
  }

  /** The locks of closed tabs are gone and all others are untouched. */
  ghost predicate LocksOfClosed(locks: map<string, Lock>, locks0: map<string, Lock>, closed: seq<Item>) {
    locks == locks0 - IdsOf(closed)
  }

  lemma LocksStep(locks: map<string, Lock>, locks0: map<string, Lock>, closed: seq<Item>, c: Item)
    requires LocksOfClosed(locks, locks0, closed)
    ensures LocksOfClosed(locks - {c.id}, locks0, closed + [c])
  {
    assert IdsOf(closed + [c]) == IdsOf(closed) + {c.id} by {
      assert forall x :: x in closed + [c] <==> x in closed || x == c;
    }
  }

  lemma ReadyStep(selected: seq<Item>, i: nat, tabs: seq<Tab>, locks: map<string, Lock>)
    requires i < |selected| && DistinctItems(selected) && Ready(selected, i, tabs, locks)
    ensures Ready(selected, i + 1, Without(tabs, selected[i].id), locks - {selected[i].id})
  {
    hide Without, Holds, Busy;
    forall k | i < k < |selected|
      ensures Holds(Without(tabs, selected[i].id), selected[k]) && !Busy(locks - {selected[i].id}, selected[k].id)
    {
      HoldsOthers(tabs, selected[k], selected[i].id);
      StillFree(locks, selected[i].id, selected[k].id);
    }
  }

  lemma ExplainedStep(selected: seq<Item>, i: nat, tabs: seq<Tab>, closed: seq<Item>, minTabs: nat)
    requires i < |selected| && DistinctIds(tabs) && Holds(tabs, selected[i])
    requires Explained(selected, i, tabs, closed, minTabs)
    ensures Explained(selected, i + 1, Without(tabs, selected[i].id), closed + [selected[i]], minTabs)
  {
    hide Without, TabsOf, Holds, DistinctIds;
    forall k | 0 <= k < i
      ensures selected[k] in closed + [selected[i]] || TabsOf(Without(tabs, selected[i].id), selected[k].user) <= minTabs
    {
      WithoutCount(tabs, selected[i], selected[k].user);
    }
  }

  lemma StartClosing(tabs: seq<Tab>, locks: map<string, Lock>, counts: map<string, nat>, minTabs: nat, selected: seq<Item>)
    requires CountsTabs(counts, tabs) && DistinctIds(tabs) && DistinctItems(selected)
    requires Ready(selected, 0, tabs, locks)
    ensures InProgress(tabs, locks, selected, minTabs, 0, tabs, locks, counts, [])
  {
  }

  lemma Facts(start: seq<Tab>, locks0: map<string, Lock>, selected: seq<Item>, minTabs: nat, i: nat,
              tabs: seq<Tab>, locks: map<string, Lock>, counts: map<string, nat>, closed: seq<Item>)
    requires InProgress(start, locks0, selected, minTabs, i, tabs, locks, counts, closed) && i < |selected|
    ensures Holds(tabs, selected[i]) && !Busy(locks, selected[i].id)
    ensures TabsOf(tabs, selected[i].user) == CountFor(counts, selected[i].user)
  {
  }

  lemma KeepOne(start: seq<Tab>, locks0: map<string, Lock>, selected: seq<Item>, minTabs: nat, i: nat,
                tabs: seq<Tab>, locks: map<string, Lock>, counts: map<string, nat>, closed: seq<Item>)
    requires InProgress(start, locks0, selected, minTabs, i, tabs, locks, counts, closed) && i < |selected|
    requires TabsOf(tabs, selected[i].user) <= minTabs
    ensures InProgress(start, locks0, selected, minTabs, i + 1, tabs, locks, counts, closed)
  {
    hide TabsOf, Busy, Holds, Closing, CountsTabs, LocksOfClosed;
  }

  lemma CloseOne(start: seq<Tab>, locks0: map<string, Lock>, selected: seq<Item>, minTabs: nat, i: nat,
                 tabs: seq<Tab>, locks: map<string, Lock>, counts: map<string, nat>, closed: seq<Item>)
    requires InProgress(start, locks0, selected, minTabs, i, tabs, locks, counts, closed) && i < |selected|
    requires TabsOf(tabs, selected[i].user) > minTabs
    requires TabsOf(tabs, selected[i].user) == CountFor(counts, selected[i].user)
    ensures
      var c := selected[i];
      InProgress(start, locks0, selected, minTabs, i + 1, Without(tabs, c.id), locks - {c.id},
                 SetCount(counts, c.user, CountFor(counts, c.user) - 1), closed + [c])
  {
    var c := selected[i];
    hide TabsOf, Without, Closing, Busy, Holds, CountsTabs, SetCount, DistinctItems, Ready, Explained, LocksOfClosed;
    assert Holds(tabs, c) by { ReadyMeans(selected, i, tabs, locks); }
    CloseStep(start, tabs, closed, minTabs, c);
    ClosingDistinct(start, tabs, closed, minTabs);
    CountsAfterClose(counts, tabs, c);
    ReadyStep(selected, i, tabs, locks);
    ExplainedStep(selected, i, tabs, closed, minTabs);
    assert AllIn(closed + [c], selected);
    LocksStep(locks, locks0, closed, c);
  }

  lemma ReadyMeans(selected: seq<Item>, i: nat, tabs: seq<Tab>, locks: map<string, Lock>)
    requires i < |selected| && Ready(selected, i, tabs, locks)
    ensures Holds(tabs, selected[i]) && !Busy(locks, selected[i].id)
  {
  }

  lemma ClosingDistinct(start: seq<Tab>, tabs: seq<Tab>, closed: seq<Item>, minTabs: nat)
    requires Closing(start, tabs, closed, minTabs)
    ensures DistinctIds(tabs)
  {
  }

  lemma CountsAfterClose(counts: map<string, nat>, tabs: seq<Tab>, c: Item)
    requires CountsTabs(counts, tabs) && DistinctIds(tabs) && Holds(tabs, c) && CountFor(counts, c.user) > 0
    ensures CountsTabs(SetCount(counts, c.user, CountFor(counts, c.user) - 1), Without(tabs, c.id))
  {
    hide Without, TabsOf, Holds, DistinctIds;
    forall u ensures TabsOf(Without(tabs, c.id), u) == TabsOf(tabs, u) - if u == c.user then 1 else 0 {
      WithoutCount(tabs, c, u);
    }
  }

  lemma AllProcessed(start: seq<Tab>, locks0: map<string, Lock>, selected: seq<Item>, minTabs: nat,
                     tabs: seq<Tab>, locks: map<string, Lock>, counts: map<string, nat>, closed: seq<Item>)
    requires InProgress(start, locks0, selected, minTabs, |selected|, tabs, locks, counts, closed)
    ensures Closing(start, tabs, closed, minTabs)
    ensures |closed| <= |selected| && AllIn(closed, selected)
    ensures Explained(selected, |selected|, tabs, closed, minTabs)
    ensures LocksOfClosed(locks, locks0, closed)
  {
    hide TabsOf, Busy, Holds, Closing, CountsTabs;
  }

  lemma StillFree(locks: map<string, Lock>, gone: string, id: string)
    requires !Busy(locks, id)
    ensures !Busy(locks - {gone}, id)
  {
  }
}
