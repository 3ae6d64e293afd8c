/**
 The per-tab mutex that serialises browser operations on one tab, and the registry
 that hands locks out by tab ID.

 `LockState` and the functions on it give the meaning of one lock operation; the class
 `TabLock` performs the same operations by updating its fields. `System` runs any number
 of locks under an arbitrary interleaving of requests, queue timers, releases and tab
 destructions.
 */
module TabLocks {

  /** One call of `acquire`, numbered in order of arrival. */
  type Ticket = nat

  /** How the promise returned by one `acquire` call was settled. */
  datatype Settlement =
    | Granted(ticket: Ticket)
    | TimedOut(ticket: Ticket)
    | Destroyed(ticket: Ticket)

  /** `timers` holds the tickets whose queue timer is armed. */
  datatype LockState = LockState(queue: seq<Ticket>, active: bool, timers: set<Ticket>)

  /** The state after an operation, and the promises it settled, in order. */
  datatype Outcome = Outcome(state: LockState, settled: seq<Settlement>)

  const FRESH_LOCK := LockState([], false, {})

  function TryNext(s: LockState): Outcome {
    if s.active || s.queue == [] then
      Outcome(s, [])
    else
      Outcome(LockState(s.queue[1..], true, s.timers - {s.queue[0]}), [Granted(s.queue[0])])
  }

  function Acquire(s: LockState, t: Ticket): Outcome {
    TryNext(LockState(s.queue + [t], s.active, s.timers + {t}))
  }

  function Release(s: LockState): Outcome {
    TryNext(s.(active := false))
  }

  /** The queue timer of `t` fires; the entry is spliced out if it is still queued. */
  function Expire(s: LockState, t: Ticket): Outcome {
    Outcome(LockState(Without(s.queue, t), s.active, s.timers - {t}), [TimedOut(t)])
  }

  function Drain(s: LockState): Outcome {
    Outcome(LockState([], true, s.timers - Elements(s.queue)), DestroyAll(s.queue))
  }

  function Elements(q: seq<Ticket>): set<Ticket> {
    set t | t in q
  }

  function DestroyAll(q: seq<Ticket>): (r: seq<Settlement>)
    ensures |r| == |q| && forall i :: 0 <= i < |q| ==> r[i] == Destroyed(q[i])
  {
    seq(|q|, i requires 0 <= i < |q| => Destroyed(q[i]))
  }

  /** The index of the first occurrence of `t`, or the length of the queue. */
  function FirstIndex(q: seq<Ticket>, t: Ticket): (i: nat)
    ensures i <= |q| && t !in q[..i]
    ensures i < |q| ==> q[i] == t
  {
    if q == [] || q[0] == t then 0
    else
      var i := 1 + FirstIndex(q[1..], t);
      assert q[..i] == [q[0]] + q[1..][..i - 1];
      i
  }

  /** Removes the first occurrence of `t`, or nothing when `t` is not queued. */
  function Without(q: seq<Ticket>, t: Ticket): seq<Ticket> {
    var i := FirstIndex(q, t);
    if i < |q| then q[..i] + q[i + 1..] else q
  }

  /** The lock object itself: its fields are updated in place, one operation at a time. */
  class TabLock {
    var queue: seq<Ticket>
    var active: bool
    var timers: set<Ticket>
    /** Every promise settled so far, oldest first. */
    ghost var log: seq<Settlement>

    constructor ()
      ensures State() == FRESH_LOCK && log == []
    {
      queue, active, timers, log := [], false, {}, [];
    }

    function State(): LockState
      reads this
    {
      LockState(queue, active, timers)
    }

    /** The object moved from its old state as `o` says, settling exactly `o.settled`. */
    twostate predicate Did(o: Outcome)
      reads this
    {
      State() == o.state && log == old(log) + o.settled
    }

    method AcquireTicket(t: Ticket)
      modifies this
      ensures Did(Acquire(old(State()), t))
    {
      timers := timers + {t};
      queue := queue + [t];
      Advance();
    }

    method ReleaseHolder()
      modifies this
      ensures Did(Release(old(State())))
    {
      active := false;
      Advance();
    }

    method Advance()
      modifies this
      ensures Did(TryNext(old(State())))
    {
      if active || |queue| == 0 {
        return;
      }
      active := true;
      var entry := queue[0];
      queue := queue[1..];
      timers := timers - {entry};
      log := log + [Granted(entry)];
    }

    method FireTimer(t: Ticket)
      modifies this
      ensures Did(Expire(old(State()), t))
    {
      timers := timers - {t};
      var i := IndexOf(t);
      if i != -1 {
        queue := queue[..i] + queue[i + 1..];
      }
      log := log + [TimedOut(t)];
    }

    method IndexOf(t: Ticket) returns (i: int)
      ensures -1 <= i < |queue|
      ensures i == -1 ==> t !in queue
      ensures i >= 0 ==> queue[i] == t && t !in queue[..i]
    {
      i := 0;
      while i < |queue|
        invariant 0 <= i <= |queue|
        invariant t !in queue[..i]
      {
        if queue[i] == t {
          return;
        }
        i := i + 1;
      }
      i := -1;
    }

    method DrainQueue()
      modifies this
      ensures Did(Drain(old(State())))
    {
      active := true;
      for i := 0 to |queue|
        invariant queue == old(queue) && active
        invariant timers == old(timers) - Elements(queue[..i])
        invariant log == old(log) + DestroyAll(queue[..i])
      {
        timers := timers - {queue[i]};
        log := log + [Destroyed(queue[i])];
        assert queue[..i + 1] == queue[..i] + [queue[i]];
        assert DestroyAll(queue[..i + 1]) == DestroyAll(queue[..i]) + [Destroyed(queue[i])];
      }
      assert queue[..|queue|] == queue;
      queue := [];
    }
  }

  /** The registry of lock objects, one per live tab. */
  class TabLockRegistry {
    var tabLocks: map<string, TabLock>

    constructor ()
      ensures tabLocks == map[]
    {
      tabLocks := map[];
    }

    /** No lock object is registered for two tabs. */
    ghost predicate Distinct()
      reads this
    {
      forall a, b :: a in tabLocks && b in tabLocks && a != b ==> tabLocks[a] != tabLocks[b]
    }

    method GetTabLock(tab: string) returns (lock: TabLock)
      requires Distinct()
      modifies this
      ensures Distinct() && tabLocks == old(tabLocks)[tab := lock]
      ensures tab in old(tabLocks) ==> lock == old(tabLocks[tab])
      ensures tab !in old(tabLocks) ==> fresh(lock) && lock.State() == FRESH_LOCK && lock.log == []
    {
      if tab !in tabLocks {
        var created := new TabLock();
        tabLocks := tabLocks[tab := created];
      }
      lock := tabLocks[tab];
    }

    /** Drains and unregisters the locks of the given tabs, and touches no other lock. */
    method ClearSessionLocks(tabs: seq<string>)
      requires Distinct()
      modifies this, tabLocks.Values
      ensures Distinct() && tabLocks == old(tabLocks) - (set t | t in tabs)
      ensures forall t :: t in old(tabLocks) ==>
        if t in tabs then old(tabLocks[t]).Did(Drain(old(tabLocks[t].State())))
        else unchanged(old(tabLocks[t]))
    {
      for i := 0 to |tabs|
        invariant tabLocks == old(tabLocks) - (set t | t in tabs[..i])
        invariant forall t :: t in old(tabLocks) ==>
          if t in tabs[..i] then old(tabLocks[t]).Did(Drain(old(tabLocks[t].State())))
          else unchanged(old(tabLocks[t]))
      {
        var tab := tabs[i];
        assert tabs[..i + 1] == tabs[..i] + [tab];
        if tab in tabLocks {
          var lock := tabLocks[tab];
          lock.DrainQueue();
          tabLocks := tabLocks - {tab};
        }
      }
      assert tabs[..|tabs|] == tabs;
    }
  }

  // ----- one lock over its whole life

  /**
   A lock together with what happened to it: the tickets that arrived, the settlements
   in order, the tickets granted and not yet released, and whether it was drained.
   */
  datatype Lock = Lock(
    state: LockState,
    arrived: seq<Ticket>,
    log: seq<Settlement>,
    holders: set<Ticket>,
    drained: bool
  )

  const NEW_LOCK := Lock(FRESH_LOCK, [], [], {}, false)

  function Tickets(log: seq<Settlement>): (r: set<Ticket>)
  {
    set s | s in log :: s.ticket
  }

  function GrantedIn(log: seq<Settlement>): set<Ticket> {
    set s | s in log && s.Granted? :: s.ticket
  }

  /** Records the outcome of an operation on the lock. */
  function Settle(l: Lock, o: Outcome): Lock {
    l.(state := o.state, log := l.log + o.settled, holders := l.holders + GrantedIn(o.settled))
  }

  ghost predicate Increasing(q: seq<Ticket>) {
    forall i, j :: 0 <= i < j < |q| ==> q[i] < q[j]
  }

  /** No promise is settled twice. */
  ghost predicate SettledOnce(log: seq<Settlement>) {
    forall i, j :: 0 <= i < j < |log| ==> log[i].ticket != log[j].ticket
  }

  /** Every arrival is either still queued or already settled, never both. */
  ghost predicate Accounted(l: Lock) {
    && Increasing(l.arrived) && Increasing(l.state.queue)
    && SettledOnce(l.log)
    && (forall t :: t in l.arrived <==> t in l.state.queue || t in Tickets(l.log))
    && (forall t :: t in l.state.queue ==> t !in Tickets(l.log))
    && l.state.timers == Elements(l.state.queue)
  }

  /** When a ticket was granted, every earlier arrival had been settled before it. */
  ghost predicate NoOvertaking(l: Lock) {
    forall j, t ::
      0 <= j < |l.log| && l.log[j].Granted? && t in l.arrived && t < l.log[j].ticket ==>
        t in Tickets(l.log[..j])
  }

  /** Mutual exclusion, and no wake-up is lost: a waiter implies somebody will release. */
  ghost predicate Exclusive(l: Lock) {
    && |l.holders| <= 1
    && l.holders <= GrantedIn(l.log)
    && if l.drained then l.state.queue == []
       else (l.state.active <==> l.holders != {}) && (l.state.queue != [] ==> l.state.active)
  }

  ghost predicate LockInv(l: Lock) {
    Accounted(l) && NoOvertaking(l) && Exclusive(l)
  }

  lemma TicketsAppend(log: seq<Settlement>, more: seq<Settlement>)
    ensures Tickets(log + more) == Tickets(log) + Tickets(more)
    ensures GrantedIn(log + more) == GrantedIn(log) + GrantedIn(more)
  {
  }

  lemma TicketsOne(log: seq<Settlement>, s: Settlement)
    ensures Tickets(log + [s]) == Tickets(log) + {s.ticket}
    ensures GrantedIn(log + [s]) == GrantedIn(log) + (if s.Granted? then {s.ticket} else {})
    ensures GrantedIn([s]) == if s.Granted? then {s.ticket} else {}
  {
    assert forall x :: x in log + [s] <==> x in log || x == s;
    assert forall x :: x in [s] <==> x == s;
  }

  lemma NoOvertakingAppend(l: Lock, log: seq<Settlement>)
    requires NoOvertaking(l) && l.log <= log
    requires forall j, t ::
      |l.log| <= j < |log| && log[j].Granted? && t in l.arrived && t < log[j].ticket ==> t in Tickets(log[..j])
    ensures NoOvertaking(l.(log := log))
  {
    forall j, t | 0 <= j < |log| && log[j].Granted? && t in l.arrived && t < log[j].ticket
      ensures t in Tickets(log[..j])
    {
      if j < |l.log| {
        assert l.log[..j] == log[..j];
        assert l.log[j] == log[j];
      }
    }
  }

  lemma SettledOnceAppend(log: seq<Settlement>, s: Settlement)
    requires SettledOnce(log) && s.ticket !in Tickets(log)
    ensures SettledOnce(log + [s])
  {
    forall i | 0 <= i < |log| ensures log[i].ticket != s.ticket {
      assert log[i] in log;
    }
  }

  /** Taking one entry out of the queue and settling it keeps the books. */
  lemma SettleOne(l: Lock, l': Lock, s: Settlement)
    requires Accounted(l) && NoOvertaking(l) && s.ticket in l.state.queue
    requires l'.arrived == l.arrived && l'.log == l.log + [s]
    requires Increasing(l'.state.queue) && Elements(l'.state.queue) == Elements(l.state.queue) - {s.ticket}
    requires l'.state.timers == l.state.timers - {s.ticket}
    requires s.Granted? ==> forall t :: t in l.arrived && t < s.ticket ==> t in Tickets(l.log)
    ensures Accounted(l') && NoOvertaking(l')
  {
    TicketsOne(l.log, s);
    assert forall x :: x in l'.state.queue <==> x in Elements(l'.state.queue);
    assert forall x :: x in l.state.queue <==> x in Elements(l.state.queue);
    SettledOnceAppend(l.log, s);
    assert l'.log[..|l.log|] == l.log;
    NoOvertakingAppend(l, l'.log);
  }

  /** Granting the head of a queue nobody holds keeps the invariant. */
  lemma TryNextKeeps(l: Lock)
    requires Accounted(l) && NoOvertaking(l) && !l.drained
    requires |l.holders| <= 1 && l.holders <= GrantedIn(l.log)
    requires l.state.active <==> l.holders != {}
    ensures LockInv(Settle(l, TryNext(l.state)))
  {
    hide Accounted, NoOvertaking, Tickets, SettledOnce, Increasing;
    var q := l.state.queue;
    if l.state.active || q == [] {
      assert l.log + [] == l.log;
      assert l.holders + GrantedIn([]) == l.holders;
    } else {
      var l' := Settle(l, TryNext(l.state));
      TicketsOne(l.log, Granted(q[0]));
      HeadIsOldest(l);
      SettleOne(l, l', Granted(q[0]));
    }
  }

  /** Everyone who arrived before the head of the queue has been settled. */
  lemma HeadIsOldest(l: Lock)
    requires Accounted(l) && l.state.queue != []
    ensures
      var q := l.state.queue;
      && Increasing(q[1..]) && Elements(q[1..]) == Elements(q) - {q[0]}
      && forall t :: t in l.arrived && t < q[0] ==> t in Tickets(l.log)
  {
    var q := l.state.queue;
    forall t | t in l.arrived && t < q[0] ensures t in Tickets(l.log) {
      assert t !in q;
    }
  }

  lemma IncreasingAppend(q: seq<Ticket>, t: Ticket)
    requires Increasing(q) && forall x :: x in q ==> x < t
    ensures Increasing(q + [t])
  {
    assert forall i :: 0 <= i < |q| ==> q[i] in q;
  }

  lemma PushKeeps(l: Lock, pushed: Lock, t: Ticket)
    requires Accounted(l) && NoOvertaking(l)
    requires forall a :: a in l.arrived ==> a < t
    requires pushed.arrived == l.arrived + [t] && pushed.log == l.log
    requires pushed.state.queue == l.state.queue + [t] && pushed.state.timers == l.state.timers + {t}
    ensures Accounted(pushed) && NoOvertaking(pushed)
  {
    IncreasingAppend(l.arrived, t);
    IncreasingAppend(l.state.queue, t);
    assert t !in l.arrived;
    assert Elements(pushed.state.queue) == Elements(l.state.queue) + {t};
    forall j | 0 <= j < |l.log| ensures l.log[j].ticket in l.arrived {
      assert l.log[j] in l.log;
    }
  }

  lemma AcquireKeeps(l: Lock, t: Ticket)
    requires LockInv(l) && !l.drained
    requires forall a :: a in l.arrived ==> a < t
    ensures LockInv(Settle(l.(arrived := l.arrived + [t]), Acquire(l.state, t)))
  {
    var pushed := l.(
      arrived := l.arrived + [t],
      state := LockState(l.state.queue + [t], l.state.active, l.state.timers + {t}));
    PushKeeps(l, pushed, t);
    TryNextKeeps(pushed);
  }

  lemma ReleaseKeeps(l: Lock, t: Ticket)
    requires LockInv(l) && t in l.holders
    ensures LockInv(Settle(l.(holders := l.holders - {t}), Release(l.state)))
  {
    var freed := l.(holders := l.holders - {t}, state := l.state.(active := false));
    assert freed.holders == {} by {
      assert |freed.holders| == |l.holders| - 1;
    }
    if l.drained {
      assert l.log + [] == l.log;
      assert freed.holders + GrantedIn([]) == freed.holders;
    } else {
      TryNextKeeps(freed);
    }
  }

  lemma RemoveAt(q: seq<Ticket>, i: nat)
    requires Increasing(q) && i < |q|
    ensures Increasing(q[..i] + q[i + 1..])
    ensures forall x :: x in q[..i] + q[i + 1..] <==> x in q && x != q[i]
  {
    var r := q[..i] + q[i + 1..];
    assert forall k :: 0 <= k < |r| ==> r[k] == q[if k < i then k else k + 1];
    forall x | x in q && x != q[i] ensures x in r {
      var k :| 0 <= k < |q| && q[k] == x;
      assert r[if k < i then k else k - 1] == x;
    }
  }

  lemma WithoutQueued(q: seq<Ticket>, t: Ticket)
    requires Increasing(q) && t in q
    ensures FirstIndex(q, t) < |q|
    ensures Increasing(Without(q, t))
    ensures Elements(Without(q, t)) == Elements(q) - {t}
  {
    var i := FirstIndex(q, t);
    assert q[..|q|] == q;
    RemoveAt(q, i);
  }

  /** An armed timer always belongs to a queued entry, and firing it removes that entry. */
  lemma ExpireKeeps(l: Lock, t: Ticket)
    requires LockInv(l) && t in l.state.timers
    ensures t in l.state.queue
    ensures LockInv(Settle(l, Expire(l.state, t)))
  {
    WithoutQueued(l.state.queue, t);
    var l' := Settle(l, Expire(l.state, t));
    TicketsOne(l.log, TimedOut(t));
    SettleOne(l, l', TimedOut(t));
    assert l'.holders == l.holders;
    assert !l.drained && l.state.active;
  }

  lemma DrainKeeps(l: Lock)
    requires LockInv(l) && !l.drained
    ensures LockInv(Settle(l.(drained := true), Drain(l.state)))
  {
    var q := l.state.queue;
    var more := DestroyAll(q);
    var l' := Settle(l.(drained := true), Drain(l.state));
    TicketsAppend(l.log, more);
    DestroyedTickets(q);
    DrainAccounted(l, l');
    NoOvertakingAppend(l, l'.log);
    hide NoOvertaking, SettledOnce, Tickets, DestroyAll, GrantedIn, Accounted;
    assert l'.holders == l.holders;
  }

  lemma DrainAccounted(l: Lock, l': Lock)
    requires Accounted(l) && l'.arrived == l.arrived && l'.log == l.log + DestroyAll(l.state.queue)
    requires l'.state.queue == [] && l'.state.timers == l.state.timers - Elements(l.state.queue)
    ensures Accounted(l')
  {
    hide SettledOnce, DestroyAll;
    TicketsAppend(l.log, DestroyAll(l.state.queue));
    DestroyedTickets(l.state.queue);
    DestroyedOnce(l.log, l.state.queue);
    hide Tickets;
  }

  lemma DestroyedTickets(q: seq<Ticket>)
    ensures forall x :: x in Tickets(DestroyAll(q)) <==> x in q
    ensures GrantedIn(DestroyAll(q)) == {}
  {
    var more := DestroyAll(q);
    forall i | 0 <= i < |q| ensures q[i] in Tickets(more) {
      assert more[i] in more;
    }
  }

  lemma DestroyedOnce(log: seq<Settlement>, q: seq<Ticket>)
    requires SettledOnce(log) && Increasing(q) && forall t :: t in q ==> t !in Tickets(log)
    ensures SettledOnce(log + DestroyAll(q))
  {
    var all := log + DestroyAll(q);
    forall i, j | 0 <= i < j < |all| ensures all[i].ticket != all[j].ticket {
      if i < |log| <= j {
        assert log[i] in log;
        assert q[j - |log|] in q;
      }
    }
  }

  // ----- the registry, under every interleaving

  /** `registry` maps a tab ID to its current lock; `issued` counts the acquire calls made. */
  datatype System = System(registry: map<string, nat>, locks: seq<Lock>, issued: nat)

  const EMPTY := System(map[], [], 0)

  /**
   One synchronous step. `Enter` is a request looking up the lock of a tab and queueing on
   it; `Fire` is a queue timer; `Leave` is a holder's release; `Destroy` removes a tab.
   */
  datatype Step =
    | Enter(tab: string)
    | Fire(lock: nat, ticket: Ticket)
    | Leave(lock: nat, ticket: Ticket)
    | Destroy(tab: string)

  predicate Enabled(s: System, step: Step) {
    match step
    case Enter(_) => true
    case Fire(l, t) => l < |s.locks| && t in s.locks[l].state.timers
    case Leave(l, t) => l < |s.locks| && t in s.locks[l].holders
    case Destroy(tab) => tab in s.registry ==> s.registry[tab] < |s.locks|
  }

  /** `getTabLock`: the registered lock, created on first use. */
  function LookUp(s: System, tab: string): System {
    if tab in s.registry then s
    else s.(registry := s.registry[tab := |s.locks|], locks := s.locks + [NEW_LOCK])
  }

  function Apply(s: System, step: Step): System
    requires Enabled(s, step)
  {
    match step
    case Enter(tab) =>
      var r := LookUp(s, tab);
      var i := r.registry[tab];
      if i < |r.locks| then
        var l := r.locks[i];
        r.(locks := r.locks[i := Settle(l.(arrived := l.arrived + [r.issued]), Acquire(l.state, r.issued))],
           issued := r.issued + 1)
      else r
    case Fire(i, t) =>
      s.(locks := s.locks[i := Settle(s.locks[i], Expire(s.locks[i].state, t))])
    case Leave(i, t) =>
      var l := s.locks[i];
      s.(locks := s.locks[i := Settle(l.(holders := l.holders - {t}), Release(l.state))])
    case Destroy(tab) =>
      if tab !in s.registry then s
      else
        var i := s.registry[tab];
        s.(registry := s.registry - {tab},
           locks := s.locks[i := Settle(s.locks[i].(drained := true), Drain(s.locks[i].state))])
  }

  ghost predicate Inv(s: System) {
    && (forall i :: 0 <= i < |s.locks| ==> LockInv(s.locks[i]))
    && (forall i, t :: 0 <= i < |s.locks| && t in s.locks[i].arrived ==> t < s.issued)
    && (forall tab :: tab in s.registry ==> s.registry[tab] < |s.locks| && !s.locks[s.registry[tab]].drained)
    && (forall a, b :: a in s.registry && b in s.registry && a != b ==> s.registry[a] != s.registry[b])
  }

  /** Replacing one lock by another good one keeps the system good. */
  lemma ReplaceKeeps(s: System, i: nat, l': Lock, issued: nat)
    requires Inv(s) && i < |s.locks| && LockInv(l') && s.issued <= issued
    requires l'.drained == s.locks[i].drained
    requires forall t :: t in l'.arrived ==> t < issued
    ensures Inv(System(s.registry, s.locks[i := l'], issued))
  {
    var locks := s.locks[i := l'];
    assert forall j :: 0 <= j < |s.locks| ==> locks[j] == if j == i then l' else s.locks[j];
  }

  lemma LookUpKeeps(s: System, tab: string)
    requires Inv(s)
    ensures Inv(LookUp(s, tab)) && tab in LookUp(s, tab).registry
  {
    var r := LookUp(s, tab);
    assert LockInv(NEW_LOCK) by {
      assert forall x :: x !in NEW_LOCK.arrived;
    }
    assert forall j :: 0 <= j < |s.locks| ==> r.locks[j] == s.locks[j];
  }

  /** The registered lock queues the next ticket. */
  lemma QueueKeeps(s: System, i: nat, l': Lock)
    requires Inv(s) && i < |s.locks| && !s.locks[i].drained
    requires l' == Settle(s.locks[i].(arrived := s.locks[i].arrived + [s.issued]),
                          Acquire(s.locks[i].state, s.issued))
    ensures Inv(System(s.registry, s.locks[i := l'], s.issued + 1))
  {
    AcquireKeeps(s.locks[i], s.issued);
    assert l'.arrived == s.locks[i].arrived + [s.issued];
    ReplaceKeeps(s, i, l', s.issued + 1);
  }

  lemma EnterKeeps(s: System, tab: string)
    requires Inv(s)
    ensures Inv(Apply(s, Enter(tab)))
  {
    hide LockInv, Settle, Acquire;
    LookUpKeeps(s, tab);
    var r := LookUp(s, tab);
    var i := r.registry[tab];
    var l' := Settle(r.locks[i].(arrived := r.locks[i].arrived + [r.issued]), Acquire(r.locks[i].state, r.issued));
    QueueKeeps(r, i, l');
    assert Apply(s, Enter(tab)) == System(r.registry, r.locks[i := l'], r.issued + 1);
  }

  lemma FireKeeps(s: System, i: nat, t: Ticket)
    requires Inv(s) && Enabled(s, Fire(i, t))
    ensures Inv(Apply(s, Fire(i, t)))
  {
    ExpireKeeps(s.locks[i], t);
    ReplaceKeeps(s, i, Settle(s.locks[i], Expire(s.locks[i].state, t)), s.issued);
  }

  lemma LeaveKeeps(s: System, i: nat, t: Ticket)
    requires Inv(s) && Enabled(s, Leave(i, t))
    ensures Inv(Apply(s, Leave(i, t)))
  {
    ReleaseKeeps(s.locks[i], t);
    ReplaceKeeps(s, i, Settle(s.locks[i].(holders := s.locks[i].holders - {t}), Release(s.locks[i].state)),
                 s.issued);
  }

  lemma DestroyKeeps(s: System, tab: string)
    requires Inv(s) && tab in s.registry
    ensures Inv(Apply(s, Destroy(tab)))
  {
    var i := s.registry[tab];
    var s' := Apply(s, Destroy(tab));
    DrainKeeps(s.locks[i]);
    hide LockInv, Drain;
    assert forall j :: 0 <= j < |s.locks| && j != i ==> s'.locks[j] == s.locks[j];
    assert forall other :: other in s'.registry ==> s'.registry[other] == s.registry[other] != i;
  }

  lemma StepKeeps(s: System, step: Step)
    requires Inv(s) && Enabled(s, step)
    ensures Inv(Apply(s, step))
  {
    match step
    case Enter(tab) => EnterKeeps(s, tab);
    case Fire(i, t) => FireKeeps(s, i, t);
    case Leave(i, t) => LeaveKeeps(s, i, t);
    case Destroy(tab) =>
      if tab in s.registry {
        DestroyKeeps(s, tab);
      }
  }

  /** `run` can be executed from `s`, one enabled step after another. */
  ghost predicate Executable(s: System, run: seq<Step>)
    decreases |run|
  {
    run == [] || (Enabled(s, run[0]) && Executable(Apply(s, run[0]), run[1..]))
  }

  ghost function After(s: System, run: seq<Step>): System
    requires Executable(s, run)
    decreases |run|
  {
    if run == [] then s else After(Apply(s, run[0]), run[1..])
  }

  lemma {:induction false} RunKeeps(s: System, run: seq<Step>)
    requires Inv(s) && Executable(s, run)
    ensures Inv(After(s, run))
    decreases |run|
  {
    if run != [] {
      StepKeeps(s, run[0]);
      RunKeeps(Apply(s, run[0]), run[1..]);
    }
  }

  /**
   Safety of every lock object in every reachable state: at most one holder, a waiter
   only behind a holder, arrivals settled at most once and granted without overtaking.
   */
  lemma Safety(run: seq<Step>, i: nat)
    requires Executable(EMPTY, run)
    requires i < |After(EMPTY, run).locks|
    ensures
      var l := After(EMPTY, run).locks[i];
      && |l.holders| <= 1
      && (l.state.queue != [] ==> |l.holders| == 1)
      && SettledOnce(l.log) && Accounted(l) && NoOvertaking(l)
  {
    RunKeeps(EMPTY, run);
    var l := After(EMPTY, run).locks[i];
    assert LockInv(l);
    if l.state.queue != [] {
      assert l.holders != {};
    }
  }

  /** One step only ever appends to a lock's log, and appends nothing once it is drained. */
  lemma StepExtendsLog(s: System, step: Step, i: nat)
    requires Inv(s) && Enabled(s, step) && i < |s.locks|
    ensures i < |Apply(s, step).locks|
    ensures s.locks[i].log <= Apply(s, step).locks[i].log
    ensures s.locks[i].drained ==>
      Apply(s, step).locks[i].drained && Apply(s, step).locks[i].log == s.locks[i].log
  {
    match step
    case Enter(tab) =>
      LookUpKeeps(s, tab);
      assert LookUp(s, tab).locks[i] == s.locks[i];
    case Fire(j, t) =>
      if j == i {
        assert LockInv(s.locks[i]);
        assert t in s.locks[i].state.queue;
      }
    case Leave(j, t) =>
      if j == i {
        assert LockInv(s.locks[i]);
      }
    case Destroy(tab) =>
  }

  /**
   A settlement is never revoked, and a drained lock settles nothing more in any later
   run: in particular it grants nothing, although its holder may still release it.
   */
  lemma {:induction false} DrainedIsFinal(s: System, run: seq<Step>, i: nat)
    requires Inv(s) && Executable(s, run) && i < |s.locks|
    ensures i < |After(s, run).locks| && s.locks[i].log <= After(s, run).locks[i].log
    ensures s.locks[i].drained ==> After(s, run).locks[i].log == s.locks[i].log
    decreases |run|
  {
    if run != [] {
      StepKeeps(s, run[0]);
      StepExtendsLog(s, run[0], i);
      DrainedIsFinal(Apply(s, run[0]), run[1..], i);
    }
  }

  // ----- bounded waiting

  ghost function Releases(run: seq<Step>, i: nat): nat {
    if run == [] then 0
    else (if run[0].Leave? && run[0].lock == i then 1 else 0) + Releases(run[1..], i)
  }

  /** How many entries are ahead of `t` in the queue. */
  ghost function Ahead(q: seq<Ticket>, t: Ticket): (k: nat)
    requires t in q
    ensures k < |q| && q[k] == t
  {
    if q[0] == t then 0 else 1 + Ahead(q[1..], t)
  }

  lemma AheadIs(q: seq<Ticket>, t: Ticket, k: nat)
    requires Increasing(q) && k < |q| && q[k] == t
    ensures Ahead(q, t) == k
  {
  }

  lemma {:induction false} FireAdvances(q: seq<Ticket>, u: Ticket, t: Ticket)
    requires Increasing(q) && u in q && t in q && t in Without(q, u)
    ensures Ahead(Without(q, u), t) <= Ahead(q, t)
  {
    WithoutQueued(q, u);
    var k, at := Ahead(q, t), FirstIndex(q, u);
    AheadIs(Without(q, u), t, if k < at then k else k - 1);
  }

  lemma {:induction false} HeadAdvances(q: seq<Ticket>, t: Ticket)
    requires Increasing(q) && t in q && t in q[1..]
    ensures Ahead(q[1..], t) == Ahead(q, t) - 1
  {
    AheadIs(q[1..], t, Ahead(q, t) - 1);
  }

  lemma {:induction false} TailAdvances(q: seq<Ticket>, u: Ticket, t: Ticket)
    requires Increasing(q + [u]) && t in q
    ensures Ahead(q + [u], t) == Ahead(q, t)
  {
    AheadIs(q + [u], t, Ahead(q, t));
  }

  /** What a step does to a queue: nothing, or one of the changes below. */
  lemma {:induction false} StepQueue(s: System, step: Step, i: nat)
    requires Inv(s) && Enabled(s, step) && i < |s.locks|
    ensures
      var q, q' := s.locks[i].state.queue, Apply(s, step).locks[i].state.queue;
      match step
      case Enter(_) => q' == q || q' == q + [s.issued]
      case Fire(j, u) => if j == i then u in q && q' == Without(q, u) else q' == q
      case Leave(j, _) => if j == i && q != [] then q' == q[1..] else q' == q
      case Destroy(_) => q' == q || q' == []
  {
    assert LockInv(s.locks[i]);
    if step.Enter? {
      assert LookUp(s, step.tab).locks[i] == s.locks[i];
    }
  }

  /** While `t` stays queued it never moves back, and each release of its lock moves it forward. */
  lemma {:induction false} StepAdvances(s: System, step: Step, i: nat, t: Ticket)
    requires Inv(s) && Enabled(s, step) && i < |s.locks|
    requires t in s.locks[i].state.queue
    requires t in Apply(s, step).locks[i].state.queue
    ensures
      Ahead(Apply(s, step).locks[i].state.queue, t) + (if step.Leave? && step.lock == i then 1 else 0)
      <= Ahead(s.locks[i].state.queue, t)
  {
    StepKeeps(s, step);
    StepQueue(s, step, i);
    var q, q' := s.locks[i].state.queue, Apply(s, step).locks[i].state.queue;
    assert LockInv(s.locks[i]) && LockInv(Apply(s, step).locks[i]);
    if q' != q {
      match step
      case Enter(_) => TailAdvances(q, s.issued, t);
      case Fire(_, u) => FireAdvances(q, u, t);
      case Leave(_, _) => HeadAdvances(q, t);
      case Destroy(_) =>
    }
  }

  /**
   Bounded waiting: a ticket with `k` entries ahead of it is settled at the latest by the
   (k+1)-th release of its lock, whatever else is interleaved.
   */
  lemma {:induction false} BoundedWaiting(s: System, run: seq<Step>, i: nat, t: Ticket)
    requires Inv(s) && Executable(s, run) && i < |s.locks|
    requires t in s.locks[i].state.queue
    requires Releases(run, i) > Ahead(s.locks[i].state.queue, t)
    ensures i < |After(s, run).locks| && t in Tickets(After(s, run).locks[i].log)
    decreases |run|
  {
    hide Apply, Inv, Ahead;
    var s' := Apply(s, run[0]);
    StepKeeps(s, run[0]);
    StepExtendsLog(s, run[0], i);
    if t in s'.locks[i].state.queue {
      StepAdvances(s, run[0], i, t);
      BoundedWaiting(s', run[1..], i, t);
    } else {
      StepKeepsArrivals(s, run[0], i, t);
      SettledStays(s', run[1..], i, t);
    }
  }

  /** An arrival that is no longer queued has been settled, and stays settled. */
  lemma SettledStays(s: System, run: seq<Step>, i: nat, t: Ticket)
    requires Inv(s) && Executable(s, run) && i < |s.locks|
    requires t in s.locks[i].arrived && t !in s.locks[i].state.queue
    ensures i < |After(s, run).locks| && t in Tickets(After(s, run).locks[i].log)
  {
    assert Accounted(s.locks[i]);
    DrainedIsFinal(s, run, i);
    hide Apply, Inv, Accounted;
    var l, m := s.locks[i], After(s, run).locks[i];
    assert m.log == l.log + m.log[|l.log|..];
    TicketsAppend(l.log, m.log[|l.log|..]);
  }

  lemma StepKeepsArrivals(s: System, step: Step, i: nat, t: Ticket)
    requires Inv(s) && Enabled(s, step) && i < |s.locks| && t in s.locks[i].state.queue
    ensures t in Apply(s, step).locks[i].arrived
  {
    assert Accounted(s.locks[i]);
  }

  // ----- which lock a tab's requests reach

  /**
   A request of a registered tab arrives at the lock registered for it and at no other; the
   first request of an unregistered tab arrives at a new lock, which is then registered.
   */
  lemma EnterReaches(s: System, tab: string)
    requires Inv(s)
    ensures
      var t := Apply(s, Enter(tab));
      var i := if tab in s.registry then s.registry[tab] else |s.locks|;
      && t.issued == s.issued + 1 && t.registry == s.registry[tab := i]
      && |t.locks| == (if tab in s.registry then |s.locks| else |s.locks| + 1)
      && (forall j :: 0 <= j < |s.locks| && j != i ==> t.locks[j] == s.locks[j])
      && t.locks[i].arrived == (if tab in s.registry then s.locks[i].arrived else []) + [s.issued]
  {
  }

  /** Other steps register nothing and let nobody arrive; a destroyed tab is unregistered and its lock drained. */
  lemma OthersReachNothing(s: System, step: Step)
    requires Inv(s) && Enabled(s, step) && !step.Enter?
    ensures
      var t := Apply(s, step);
      && t.issued == s.issued && |t.locks| == |s.locks|
      && (forall j :: 0 <= j < |s.locks| ==> t.locks[j].arrived == s.locks[j].arrived)
      && t.registry == (if step.Destroy? then s.registry - {step.tab} else s.registry)
      && forall j :: 0 <= j < |s.locks| ==>
           (t.locks[j].drained <==>
              (s.locks[j].drained || (step.Destroy? && step.tab in s.registry && s.registry[step.tab] == j)))
  {
    hide LockInv, Release, Expire, Drain, GrantedIn;
  }

  /** No request arrives at two locks. */
  ghost predicate ArriveOnce(s: System) {
    forall i, j, t :: 0 <= i < |s.locks| && 0 <= j < |s.locks| && t in s.locks[i].arrived && t in s.locks[j].arrived ==> i == j
  }

  lemma ArriveOnceStep(s: System, step: Step)
    requires Inv(s) && Enabled(s, step) && ArriveOnce(s)
    ensures ArriveOnce(Apply(s, step))
  {
    if step.Enter? {
      EnterReaches(s, step.tab);
      hide Apply;
      var t := Apply(s, step);
      assert forall i, u :: 0 <= i < |s.locks| && u in t.locks[i].arrived && u != s.issued ==> u in s.locks[i].arrived;
      assert forall i, u :: 0 <= i < |s.locks| && u in s.locks[i].arrived ==> u != s.issued;
    } else {
      OthersReachNothing(s, step);
      hide Apply;
    }
  }

  /** The requests of one tab made during the run. */
  ghost function RequestsOf(s: System, run: seq<Step>, tab: string): set<Ticket>
    requires Executable(s, run)
    decreases |run|
  {
    if run == [] then {}
    else (if run[0] == Enter(tab) then {s.issued} else {}) + RequestsOf(Apply(s, run[0]), run[1..], tab)
  }

  lemma RegisteredStays(s: System, step: Step, tab: string)
    requires Inv(s) && Enabled(s, step) && step != Destroy(tab) && tab in s.registry
    ensures
      var t := Apply(s, step);
      && tab in t.registry && t.registry[tab] == s.registry[tab] < |t.locks|
      && forall u :: u in s.locks[s.registry[tab]].arrived ==> u in t.locks[s.registry[tab]].arrived
  {
    if step.Enter? {
      EnterReaches(s, step.tab);
      hide Apply;
    } else {
      OthersReachNothing(s, step);
      hide Apply;
    }
  }

  lemma {:induction false} ArrivalsStay(s: System, run: seq<Step>, tab: string)
    requires Inv(s) && Executable(s, run) && tab in s.registry && Destroy(tab) !in run
    ensures
      var t := After(s, run);
      && tab in t.registry && t.registry[tab] == s.registry[tab] < |t.locks|
      && forall u :: u in s.locks[s.registry[tab]].arrived ==> u in t.locks[s.registry[tab]].arrived
    decreases |run|
  {
    hide Apply, Inv;
    assert s.registry[tab] < |s.locks| by { RegisteredIsThere(s, tab); }
    if run != [] {
      RegisteredStays(s, run[0], tab);
      StepKeeps(s, run[0]);
      ArrivalsStay(Apply(s, run[0]), run[1..], tab);
    }
  }

  lemma RegisteredIsThere(s: System, tab: string)
    requires Inv(s) && tab in s.registry
    ensures s.registry[tab] < |s.locks|
  {
  }

  /** As long as a tab is not destroyed, all its requests arrive at one and the same lock object. */
  lemma {:induction false} OneLockPerTab(s: System, run: seq<Step>, tab: string)
    requires Inv(s) && Executable(s, run) && Destroy(tab) !in run
    ensures
      var t := After(s, run);
      && (tab in s.registry ==> tab in t.registry && t.registry[tab] == s.registry[tab])
      && forall u :: u in RequestsOf(s, run, tab) ==>
           tab in t.registry && t.registry[tab] < |t.locks| && u in t.locks[t.registry[tab]].arrived
    decreases |run|
  {
    hide Apply, Inv;
    if run != [] {
      var s' := Apply(s, run[0]);
      StepKeeps(s, run[0]);
      OneLockPerTab(s', run[1..], tab);
      if tab in s.registry {
        RegisteredStays(s, run[0], tab);
      }
      if run[0] == Enter(tab) {
        EnterReaches(s, tab);
        ArrivalsStay(s', run[1..], tab);
      }
    }
  }

  lemma {:induction false} ArriveOnceOverRuns(s: System, run: seq<Step>)
    requires Inv(s) && Executable(s, run) && ArriveOnce(s)
    ensures ArriveOnce(After(s, run))
    decreases |run|
  {
    hide Apply, Inv, ArriveOnce;
    if run != [] {
      StepKeeps(s, run[0]);
      ArriveOnceStep(s, run[0]);
      ArriveOnceOverRuns(Apply(s, run[0]), run[1..]);
    }
  }

  lemma HolderArrived(s: System, i: nat, t: Ticket)
    requires Inv(s) && i < |s.locks| && t in s.locks[i].holders
    ensures t in s.locks[i].arrived && s.locks[i].holders == {t}
  {
    var l := s.locks[i];
    assert LockInv(l);
    assert t in GrantedIn(l.log) && t in Tickets(l.log);
    assert l.holders == {t} by {
      assert {t} <= l.holders && |{t}| == 1;
      SameSize({t}, l.holders);
    }
  }

  lemma SameSize(a: set<Ticket>, b: set<Ticket>)
    requires a <= b && |b| <= |a|
    ensures a == b
  {
    assert |b| == |a| + |b - a|;
  }

  /** Mutual exclusion per tab: of the requests made while the tab is not destroyed, at most one holds at any time. */
  lemma OneHolderPerTab(before: seq<Step>, run: seq<Step>, tab: string, i: nat, t: Ticket, j: nat, u: Ticket)
    requires Executable(EMPTY, before) && Executable(After(EMPTY, before), run) && Destroy(tab) !in run
    requires t in RequestsOf(After(EMPTY, before), run, tab) && u in RequestsOf(After(EMPTY, before), run, tab)
    requires i < |After(After(EMPTY, before), run).locks| && t in After(After(EMPTY, before), run).locks[i].holders
    requires j < |After(After(EMPTY, before), run).locks| && u in After(After(EMPTY, before), run).locks[j].holders
    ensures i == j && t == u
  {
    hide Apply, Inv;
    assert Inv(EMPTY) by { EmptyIsGood(); }
    RunKeeps(EMPTY, before);
    var s := After(EMPTY, before);
    ArriveOnceOverRuns(EMPTY, before);
    ArriveOnceOverRuns(s, run);
    RunKeeps(s, run);
    OneLockPerTab(s, run, tab);
    var e := After(s, run);
    HolderArrived(e, i, t);
    HolderArrived(e, j, u);
  }

  lemma EmptyIsGood()
    ensures Inv(EMPTY) && ArriveOnce(EMPTY)
  {
  }

  // ----- who is settled, and how

  /** An arrival waits behind a holder, and otherwise holds at once. */
  ghost predicate Queues(l: Lock, t: Ticket, l': Lock) {
    if l.state.active then l'.state.queue == l.state.queue + [t] && l'.log == l.log && l'.holders == l.holders
    else l'.state.queue == [] && l'.log == l.log + [Granted(t)] && l'.holders == {t} && l'.state.active
  }

  /** A waiter gives up: it alone leaves the queue. */
  ghost predicate GivesUp(l: Lock, t: Ticket, l': Lock) {
    var q := l.state.queue;
    && l'.log == l.log + [TimedOut(t)] && l'.holders == l.holders
    && exists k :: 0 <= k < |q| && q[k] == t && l'.state.queue == q[..k] + q[k + 1..]
  }

  /** A release hands the lock to the oldest waiter, if there is one. */
  ghost predicate HandsOn(l: Lock, l': Lock) {
    var q := l.state.queue;
    if q == [] then l'.state.queue == [] && l'.log == l.log && l'.holders == {} && !l'.state.active
    else l'.state.queue == q[1..] && l'.log == l.log + [Granted(q[0])] && l'.holders == {q[0]} && l'.state.active
  }

  /** A destruction rejects all waiters in order and leaves the holder alone. */
  ghost predicate TurnsAway(l: Lock, l': Lock) {
    var q := l.state.queue;
    && l'.drained && l'.state.active && l'.state.queue == [] && l'.holders == l.holders && |l'.log| == |l.log| + |q|
    && l.log <= l'.log && forall k :: 0 <= k < |q| ==> l'.log[|l.log| + k] == Destroyed(q[k])
  }

  lemma AcquireQueues(l: Lock, t: Ticket)
    requires LockInv(l) && !l.drained
    ensures Queues(l, t, Settle(l.(arrived := l.arrived + [t]), Acquire(l.state, t)))
  {
    hide Accounted, NoOvertaking, Tickets;
    TicketsOne([], Granted(t));
    hide GrantedIn;
    assert l.log + [] == l.log;
    assert GrantedIn([]) == {} by { NothingGranted(); }
  }

  lemma NothingGranted()
    ensures GrantedIn([]) == {}
  {
  }

  lemma ExpireGivesUp(l: Lock, t: Ticket)
    requires LockInv(l) && t in l.state.timers
    ensures GivesUp(l, t, Settle(l, Expire(l.state, t)))
  {
    TicketsOne([], TimedOut(t));
    WithoutQueued(l.state.queue, t);
    hide Accounted, NoOvertaking, Tickets;
    var k := FirstIndex(l.state.queue, t);
    assert Without(l.state.queue, t) == l.state.queue[..k] + l.state.queue[k + 1..];
  }

  lemma ReleaseHandsOn(l: Lock, t: Ticket)
    requires LockInv(l) && l.holders == {t}
    ensures HandsOn(l, Settle(l.(holders := l.holders - {t}), Release(l.state)))
  {
    assert l.log + [] == l.log && l.holders - {t} == {} && GrantedIn([]) == {};
    if l.state.queue != [] {
      TicketsOne([], Granted(l.state.queue[0]));
    }
    hide Accounted, NoOvertaking, Tickets;
  }

  lemma DrainTurnsAway(l: Lock)
    ensures TurnsAway(l, Settle(l.(drained := true), Drain(l.state)))
  {
    hide GrantedIn, Tickets, Elements;
    DestroyedTickets(l.state.queue);
    var more := DestroyAll(l.state.queue);
    hide DestroyAll;
    assert l.holders + GrantedIn(more) == l.holders;
    assert forall k :: 0 <= k < |more| ==> (l.log + more)[|l.log| + k] == more[k];
  }

  /** One step, seen from one lock: who is queued, granted or rejected, and who holds afterwards. */
  ghost predicate Served(s: System, step: Step, i: nat, l': Lock)
    requires i < |s.locks|
  {
    var l := s.locks[i];
    match step
    case Enter(tab) => if tab in s.registry && s.registry[tab] == i then Queues(l, s.issued, l') else l' == l
    case Fire(j, t) => if j == i then GivesUp(l, t, l') else l' == l
    case Leave(j, _) => if j == i then HandsOn(l, l') else l' == l
    case Destroy(tab) => if tab in s.registry && s.registry[tab] == i then TurnsAway(l, l') else l' == l
  }

  /** Every step serves every lock as stated. */
  lemma StepServes(s: System, step: Step, i: nat)
    requires Inv(s) && Enabled(s, step) && i < |s.locks|
    ensures i < |Apply(s, step).locks| && Served(s, step, i, Apply(s, step).locks[i])
  {
    assert LockInv(s.locks[i]);
    if step.Enter? && step.tab in s.registry && s.registry[step.tab] == i {
      AcquireQueues(s.locks[i], s.issued);
    }
    if step.Fire? && step.lock == i {
      ExpireGivesUp(s.locks[i], step.ticket);
    }
    if step.Leave? && step.lock == i {
      HolderArrived(s, i, step.ticket);
      ReleaseHandsOn(s.locks[i], step.ticket);
    }
    if step.Destroy? && step.tab in s.registry && s.registry[step.tab] == i {
      DrainTurnsAway(s.locks[i]);
    }
    hide LockInv, Settle, Acquire, Release, Expire, Drain, Queues, GivesUp, HandsOn, TurnsAway;
  }
}
