/**
 The per-user concurrency limiter. A request either enters at once or leaves a callback in
 the queue of its user's record; a finishing request calls the oldest callback. Waking a
 waiter and the waiter entering are separate steps, because a promise continuation runs
 later than the call that resolves it.
 */
module UserLimit {

  /** One call of the limiter, numbered in order of arrival. */
  type Op = nat

  /**
   `queue` holds the callbacks; a waiter whose timer fired is rejected but its callback
   stays in the queue (`expired`). `woken` waiters have been resolved and not yet entered.
   */
  datatype Record = Record(
    user: string,
    active: int,
    queue: seq<Op>,
    expired: set<Op>,
    woken: set<Op>,
    running: set<Op>
  )

  /** `records` keeps every record ever made, also those no longer in `table`. */
  datatype System = System(
    limit: int,
    table: map<string, nat>,
    records: seq<Record>,
    activeOps: int,
    issued: nat
  )

  datatype Step =
    | Arrive(user: string)
    | Expire(rec: nat, op: Op)
    | Resume(rec: nat, op: Op)
    | Finish(rec: nat, op: Op)

  function Initial(limit: int): System {
    System(limit, map[], [], 0, 0)
  }

  predicate Enabled(s: System, step: Step) {
    match step
    case Arrive(_) => true
    case Expire(i, op) => i < |s.records| && op in s.records[i].queue && op !in s.records[i].expired
    case Resume(i, op) => i < |s.records| && op in s.records[i].woken
    case Finish(i, op) => i < |s.records| && op in s.records[i].running
  }

  function LookUp(s: System, user: string): System {
    if user in s.table then s
    else s.(table := s.table[user := |s.records|], records := s.records + [Record(user, 0, [], {}, {}, {})])
  }

  function Start(r: Record, op: Op): Record {
    r.(active := r.active + 1, woken := r.woken - {op}, running := r.running + {op})
  }

  function Enqueue(r: Record, op: Op): Record {
    r.(queue := r.queue + [op])
  }

  /** Frees one slot and calls the oldest callback; an expired one has nobody to wake. */
  function Stop(r: Record, op: Op): Record {
    var freed := r.(active := r.active - 1, running := r.running - {op});
    if r.queue == [] then freed
    else
      var head := r.queue[0];
      freed.(queue := r.queue[1..],
             expired := r.expired - {head},
             woken := if head in r.expired then r.woken else r.woken + {head})
  }

  function Apply(s: System, step: Step): System
    requires Enabled(s, step)
  {
    match step
    case Arrive(user) =>
      var t := LookUp(s, user);
      var i := t.table[user];
      if i >= |t.records| then t
      else if t.records[i].active >= t.limit then
        t.(records := t.records[i := Enqueue(t.records[i], t.issued)], issued := t.issued + 1)
      else
        t.(records := t.records[i := Start(t.records[i], t.issued)],
           activeOps := t.activeOps + 1, issued := t.issued + 1)
    case Expire(i, op) =>
      s.(records := s.records[i := s.records[i].(expired := s.records[i].expired + {op})])
    case Resume(i, op) =>
      s.(records := s.records[i := Start(s.records[i], op)], activeOps := s.activeOps + 1)
    case Finish(i, op) =>
      var r := Stop(s.records[i], op);
      s.(records := s.records[i := r], activeOps := s.activeOps - 1,
         table := if r.active == 0 && r.queue == [] then s.table - {r.user} else s.table)
  }

  // ----- what every run keeps

  ghost predicate RecordInv(r: Record, issued: nat) {
    && r.active == |r.running|
    && (forall i, j :: 0 <= i < j < |r.queue| ==> r.queue[i] < r.queue[j])
    && (forall op, i :: op in r.woken && 0 <= i < |r.queue| ==> op < r.queue[i])
    && (forall op :: op in r.expired ==> op in r.queue)
    && (forall op :: op in r.queue ==> op < issued && op !in r.woken && op !in r.running)
    && (forall op :: op in r.woken ==> op < issued && op !in r.running)
    && (forall op :: op in r.running ==> op < issued)
  }

  ghost function TotalActive(rs: seq<Record>): int {
    if rs == [] then 0 else TotalActive(rs[..|rs| - 1]) + rs[|rs| - 1].active
  }

  ghost predicate Inv(s: System) {
    && (forall i :: 0 <= i < |s.records| ==> RecordInv(s.records[i], s.issued))
    && (forall u :: u in s.table ==> s.table[u] < |s.records| && s.records[s.table[u]].user == u)
    && s.activeOps == TotalActive(s.records)
  }

  lemma {:induction false} TotalActiveUpdate(rs: seq<Record>, i: nat, r: Record)
    requires i < |rs|
    ensures TotalActive(rs[i := r]) == TotalActive(rs) - rs[i].active + r.active
  {
    var n := |rs| - 1;
    if i == n {
      assert rs[i := r][..n] == rs[..n];
    } else {
      assert rs[i := r][..n] == rs[..n][i := r];
      TotalActiveUpdate(rs[..n], i, r);
    }
  }

  lemma StartKeeps(r: Record, op: Op, issued: nat)
    requires RecordInv(r, issued) && op !in r.running && op !in r.queue && op < issued
    ensures RecordInv(Start(r, op), issued)
  {
  }

  lemma StopKeeps(r: Record, op: Op, issued: nat)
    requires RecordInv(r, issued) && op in r.running
    ensures RecordInv(Stop(r, op), issued)
  {
    if r.queue != [] {
      HeadOf(r.queue);
      var t := Stop(r, op);
      assert forall x, i :: x in t.woken && 0 <= i < |t.queue| ==> x < t.queue[i] by {
        assert forall i :: 0 <= i < |t.queue| ==> t.queue[i] == r.queue[i + 1];
      }
    }
  }

  lemma HeadOf(q: seq<Op>)
    requires q != [] && forall i, j :: 0 <= i < j < |q| ==> q[i] < q[j]
    ensures q[0] in q && q[0] !in q[1..] && forall x :: x in q <==> x == q[0] || x in q[1..]
  {
    assert q == [q[0]] + q[1..];
  }

  lemma EnqueueKeeps(r: Record, issued: nat)
    requires RecordInv(r, issued)
    ensures RecordInv(Enqueue(r, issued), issued + 1)
  {
    assert forall i :: 0 <= i < |r.queue| ==> r.queue[i] in r.queue;
  }

  lemma ReplaceKeeps(s: System, i: nat, r: Record, s': System)
    requires Inv(s) && i < |s.records| && s.issued <= s'.issued && RecordInv(r, s'.issued)
    requires s'.records == s.records[i := r]
    requires r.user == s.records[i].user && s'.activeOps == s.activeOps - s.records[i].active + r.active
    requires forall u :: u in s'.table ==> u in s.table && s'.table[u] == s.table[u]
    ensures Inv(s')
  {
    TotalActiveUpdate(s.records, i, r);
    forall j | 0 <= j < |s'.records| ensures RecordInv(s'.records[j], s'.issued) {
      if j != i {
        assert s'.records[j] == s.records[j];
      }
    }
  }

  lemma LookUpKeeps(s: System, user: string)
    requires Inv(s)
    ensures Inv(LookUp(s, user)) && user in LookUp(s, user).table && LookUp(s, user).limit == s.limit
  {
    var t := LookUp(s, user);
    if user !in s.table {
      assert t.records[..|t.records| - 1] == s.records;
    }
  }

  lemma ArriveKeeps(s: System, user: string)
    requires Inv(s)
    ensures Inv(Apply(s, Arrive(user)))
  {
    var t, s' := LookUp(s, user), Apply(s, Arrive(user));
    LookUpKeeps(s, user);
    var i := t.table[user];
    assert RecordInv(t.records[i], t.issued);
    hide LookUp;
    if t.records[i].active >= t.limit {
      EnqueueKeeps(t.records[i], t.issued);
      hide RecordInv;
      ReplaceKeeps(t, i, Enqueue(t.records[i], t.issued), s');
    } else {
      StartKeeps(t.records[i], t.issued, t.issued + 1);
      hide RecordInv;
      ReplaceKeeps(t, i, Start(t.records[i], t.issued), s');
    }
  }

  lemma StepKeeps(s: System, step: Step)
    requires Inv(s) && Enabled(s, step)
    ensures Inv(Apply(s, step))
  {
    var s' := Apply(s, step);
    match step
    case Arrive(user) => ArriveKeeps(s, user);
    case Expire(i, op) =>
      ReplaceKeeps(s, i, s'.records[i], s');
    case Resume(i, op) =>
      StartKeeps(s.records[i], op, s.issued);
      ReplaceKeeps(s, i, s'.records[i], s');
    case Finish(i, op) =>
      StopKeeps(s.records[i], op, s.issued);
      ReplaceKeeps(s, i, s'.records[i], s');
  }

  // ----- what each step does for whom

  /** A call enters: it alone starts running. */
  ghost predicate Enters(r: Record, op: Op, r': Record) {
    && r'.active == r.active + 1 && r'.running == r.running + {op} && r'.woken == r.woken - {op}
    && r'.queue == r.queue && r'.expired == r.expired && r'.user == r.user
  }

  /** A call ends: its slot goes to the oldest callback, which wakes its caller unless that gave up. */
  ghost predicate Ends(r: Record, op: Op, r': Record) {
    && r'.active == r.active - 1 && r'.running == r.running - {op} && r'.user == r.user
    && if r.queue == [] then r'.queue == [] && r'.woken == r.woken && r'.expired == r.expired
       else
         && r'.queue == r.queue[1..] && r'.expired == r.expired - {r.queue[0]}
         && r'.woken == r.woken + if r.queue[0] in r.expired then {} else {r.queue[0]}
  }

  /** The record a user's arrival reaches: the one in the table, or a new one. */
  ghost function Reached(s: System, user: string): Record {
    if user in s.table && s.table[user] < |s.records| then s.records[s.table[user]] else Record(user, 0, [], {}, {}, {})
  }

  /** One step, seen from outside: which record changes, and for whom. */
  ghost predicate Served(s: System, step: Step, t: System) {
    match step
    case Arrive(user) =>
      && t.issued == s.issued + 1 && user in t.table && t.table[user] < |t.records|
      && (forall u :: u in s.table ==> u in t.table && t.table[u] == s.table[u])
      && (forall u :: u in t.table && u != user ==> u in s.table)
      && |t.records| == |s.records| + (if user in s.table then 0 else 1)
      && (forall j :: 0 <= j < |s.records| && j != t.table[user] ==> t.records[j] == s.records[j])
      && var r, r' := Reached(s, user), t.records[t.table[user]];
         if r.active < s.limit then Enters(r, s.issued, r')
         else r' == r.(queue := r.queue + [s.issued])
    case Expire(i, op) => i < |s.records| &&
      t == s.(records := s.records[i := s.records[i].(expired := s.records[i].expired + {op})])
    case Resume(i, op) =>
      && i < |s.records| && t.issued == s.issued && t.table == s.table && |t.records| == |s.records|
      && Enters(s.records[i], op, t.records[i])
      && forall j :: 0 <= j < |s.records| && j != i ==> t.records[j] == s.records[j]
    case Finish(i, op) =>
      && i < |s.records| && t.issued == s.issued && |t.records| == |s.records| && Ends(s.records[i], op, t.records[i])
      && (forall j :: 0 <= j < |s.records| && j != i ==> t.records[j] == s.records[j])
      && var idle := t.records[i].running == {} && t.records[i].queue == [];
         forall u :: (u in t.table <==> u in s.table && !(idle && u == s.records[i].user))
           && (u in t.table ==> t.table[u] == s.table[u])
  }

  lemma StepServes(s: System, step: Step)
    requires Inv(s) && Enabled(s, step)
    ensures Served(s, step, Apply(s, step)) && Apply(s, step).limit == s.limit
  {
    if step.Arrive? {
      ArriveServes(s, step.user);
    } else if step.Finish? {
      FinishServes(s, step.rec, step.op);
    } else {
      hide Inv, RecordInv, TotalActive;
    }
  }

  lemma StopEnds(r: Record, op: Op, issued: nat)
    requires RecordInv(r, issued) && op in r.running
    ensures Ends(r, op, Stop(r, op)) && (Stop(r, op).active == 0 <==> Stop(r, op).running == {})
  {
    StopKeeps(r, op, issued);
    var t := Stop(r, op);
    assert t.active == |t.running|;
    hide RecordInv;
  }

  lemma FinishServes(s: System, i: nat, op: Op)
    requires Inv(s) && Enabled(s, Finish(i, op))
    ensures Served(s, Finish(i, op), Apply(s, Finish(i, op))) && Apply(s, Finish(i, op)).limit == s.limit
  {
    StopEnds(s.records[i], op, s.issued);
    hide Inv, Stop, Ends;
    assert Stop(s.records[i], op).user == s.records[i].user by { StopKeepsUser(s.records[i], op); }
  }

  lemma StopKeepsUser(r: Record, op: Op)
    ensures Stop(r, op).user == r.user
  {
  }

  lemma ArriveServes(s: System, user: string)
    requires Inv(s)
    ensures Served(s, Arrive(user), Apply(s, Arrive(user)))
  {
    hide RecordInv, TotalActive;
    if user in s.table {
      assert s.table[user] < |s.records|;
    }
    var i := LookUp(s, user).table[user];
    assert LookUp(s, user).records[i] == Reached(s, user);
  }

  ghost predicate Executable(s: System, run: seq<Step>)
    decreases |run|
  {
    run == [] || (Enabled(s, run[0]) && Executable(Apply(s, run[0]), run[1..]))
  }

  ghost function After(s: System, run: seq<Step>): System
    requires Executable(s, run)
    decreases |run|
  {
    if run == [] then s else After(Apply(s, run[0]), run[1..])
  }

  lemma {:induction false} RunKeeps(s: System, run: seq<Step>)
    requires Inv(s) && Executable(s, run)
    ensures Inv(After(s, run))
    decreases |run|
  {
    if run != [] {
      StepKeeps(s, run[0]);
      RunKeeps(Apply(s, run[0]), run[1..]);
    }
  }

  /**
   The health gauge is exact in every reachable state: it is the sum of `active` over all
   records, dropped ones included, and each record's `active` is its number of running calls.
   */
  lemma ActiveOpsIsExact(limit: int, run: seq<Step>)
    requires Executable(Initial(limit), run)
    ensures
      var s := After(Initial(limit), run);
      && s.activeOps == TotalActive(s.records)
      && forall r :: r in s.records ==> r.active == |r.running|
  {
    RunKeeps(Initial(limit), run);
  }

  /** Waiters are woken in arrival order: whoever is woken came before everyone still queued. */
  lemma WokenInOrder(limit: int, run: seq<Step>, i: nat)
    requires Executable(Initial(limit), run) && i < |After(Initial(limit), run).records|
    ensures
      var r := After(Initial(limit), run).records[i];
      && (forall j, k :: 0 <= j < k < |r.queue| ==> r.queue[j] < r.queue[k])
      && (forall op, j :: op in r.woken && 0 <= j < |r.queue| ==> op < r.queue[j])
  {
    RunKeeps(Initial(limit), run);
    assert RecordInv(After(Initial(limit), run).records[i], After(Initial(limit), run).issued);
  }

  // ----- the limit

  function Booked(r: Record): int {
    r.active + |r.woken|
  }

  function Cap(limit: int): nat {
    if limit < 0 then 0 else limit
  }

  /** No record has more entered and woken calls than the limit. */
  ghost predicate WithinLimit(s: System) {
    forall i :: 0 <= i < |s.records| ==> Booked(s.records[i]) <= Cap(s.limit)
  }

  /**
   The one step that breaks the limit: an arrival that finds a slot free only because the
   waiter it was freed for has not entered yet.
   */
  predicate Overbooks(s: System, step: Step) {
    && step.Arrive? && step.user in s.table && s.table[step.user] < |s.records|
    && var r := s.records[s.table[step.user]];
       r.active < s.limit <= Booked(r)
  }

  lemma BookedAfterStart(r: Record, op: Op, issued: nat)
    requires RecordInv(r, issued)
    ensures Booked(Start(r, op)) == Booked(r) + if op in r.woken then 0 else 1
  {
    if op !in r.woken {
      assert r.woken - {op} == r.woken;
    }
  }

  lemma BookedAfterStop(r: Record, op: Op, issued: nat)
    requires RecordInv(r, issued) && op in r.running
    ensures Booked(Stop(r, op)) == if r.queue != [] && r.queue[0] !in r.expired then Booked(r) else Booked(r) - 1
  {
    if r.queue != [] {
      assert r.queue[0] in r.queue;
    }
  }

  ghost predicate RecordWithin(r: Record, limit: int) {
    Booked(r) <= Cap(limit)
  }

  /** Replacing one record decides the limit by that record alone. */
  lemma WithinAfterReplace(t: System, i: nat, r: Record, s': System)
    requires WithinLimit(t) && i < |t.records| && s'.records == t.records[i := r] && s'.limit == t.limit
    ensures WithinLimit(s') <==> RecordWithin(r, t.limit)
  {
    hide Booked, Cap;
    assert s'.records[i] == r;
    assert forall j :: 0 <= j < |t.records| && j != i ==> s'.records[j] == t.records[j];
  }

  lemma LimitArrival(s: System, user: string)
    requires Inv(s) && WithinLimit(s)
    ensures WithinLimit(Apply(s, Arrive(user))) <==> !Overbooks(s, Arrive(user))
  {
    var t, s' := LookUp(s, user), Apply(s, Arrive(user));
    var i := t.table[user];
    LookUpKeeps(s, user);
    assert WithinLimit(t) && RecordInv(t.records[i], t.issued);
    assert RecordWithin(t.records[i], t.limit);
    BookedAfterStart(t.records[i], t.issued, t.issued);
    WithinAfterReplace(t, i, s'.records[i], s');
    hide Inv, RecordInv;
  }

  /** One step keeps every record within the limit exactly when it does not overbook. */
  lemma LimitStep(s: System, step: Step)
    requires Inv(s) && Enabled(s, step) && WithinLimit(s)
    ensures Apply(s, step).limit == s.limit
    ensures WithinLimit(Apply(s, step)) <==> !Overbooks(s, step)
  {
    var s' := Apply(s, step);
    match step
    case Arrive(user) => LimitArrival(s, user);
    case Expire(i, op) =>
      WithinAfterReplace(s, i, s'.records[i], s');
      assert RecordWithin(s.records[i], s.limit);
    case Resume(i, op) =>
      BookedAfterStart(s.records[i], op, s.issued);
      WithinAfterReplace(s, i, s'.records[i], s');
    case Finish(i, op) =>
      BookedAfterStop(s.records[i], op, s.issued);
      WithinAfterReplace(s, i, s'.records[i], s');
  }

  /** Every state visited by the run is within the limit. */
  ghost predicate AlwaysWithinLimit(s: System, run: seq<Step>)
    requires Executable(s, run)
    decreases |run|
  {
    WithinLimit(s) && (run != [] ==> AlwaysWithinLimit(Apply(s, run[0]), run[1..]))
  }

  ghost predicate SomeStepOverbooks(s: System, run: seq<Step>)
    requires Executable(s, run)
    decreases |run|
  {
    run != [] && (Overbooks(s, run[0]) || SomeStepOverbooks(Apply(s, run[0]), run[1..]))
  }

  /** A whole run stays within the limit exactly when none of its arrivals overbooks. */
  lemma {:induction false} LimitOverRuns(s: System, run: seq<Step>)
    requires Inv(s) && WithinLimit(s) && Executable(s, run)
    ensures AlwaysWithinLimit(s, run) <==> !SomeStepOverbooks(s, run)
    decreases |run|
  {
    if run != [] {
      LimitStep(s, run[0]);
      if !Overbooks(s, run[0]) {
        StepKeeps(s, run[0]);
        LimitOverRuns(Apply(s, run[0]), run[1..]);
      }
    }
  }

  /** Arrivals with no woken waiter pending on their record never overbook. */
  lemma QuietArrivalIsSafe(s: System, user: string)
    requires Inv(s)
    requires user in s.table ==> s.records[s.table[user]].woken == {}
    ensures !Overbooks(s, Arrive(user))
  {
  }

  // ----- the limit of a user over all records, dropped ones included

  /** Entered and woken calls on the records of one user. */
  ghost function UserBooked(rs: seq<Record>, user: string): int {
    if rs == [] then 0
    else
      var last := rs[|rs| - 1];
      UserBooked(rs[..|rs| - 1], user) + if last.user == user then Booked(last) else 0
  }

  lemma {:induction false} UserBookedUpdate(rs: seq<Record>, i: nat, r: Record, user: string)
    requires i < |rs| && r.user == rs[i].user
    ensures UserBooked(rs[i := r], user) ==
      UserBooked(rs, user) + if r.user == user then Booked(r) - Booked(rs[i]) else 0
  {
    hide Booked;
    var n := |rs| - 1;
    if i == n {
      assert rs[i := r][..n] == rs[..n];
    } else {
      assert rs[i := r][..n] == rs[..n][i := r];
      UserBookedUpdate(rs[..n], i, r, user);
    }
  }

  ghost predicate EachUserWithin(s: System) {
    forall u :: UserBooked(s.records, u) <= Cap(s.limit)
  }

  /**
   The step that breaks a user's limit: an arrival that enters, because its record or a new
   one has a free slot, while the user's records together have none.
   */
  ghost predicate OverbooksUser(s: System, step: Step) {
    && step.Arrive?
    && (step.user in s.table ==> s.table[step.user] < |s.records| && s.records[s.table[step.user]].active < s.limit)
    && 0 < s.limit <= UserBooked(s.records, step.user)
  }

  lemma UserBookedAfterReplace(t: System, i: nat, r: Record, s': System)
    requires EachUserWithin(t) && i < |t.records| && r.user == t.records[i].user
    requires s'.records == t.records[i := r] && s'.limit == t.limit
    ensures EachUserWithin(s') <==>
      UserBooked(t.records, r.user) + Booked(r) - Booked(t.records[i]) <= Cap(t.limit)
  {
    hide Booked, Cap;
    forall u ensures UserBooked(s'.records, u) ==
      UserBooked(t.records, u) + if r.user == u then Booked(r) - Booked(t.records[i]) else 0
    {
      UserBookedUpdate(t.records, i, r, u);
    }
    assert EachUserWithin(s') ==> UserBooked(s'.records, r.user) <= Cap(t.limit);
  }

  lemma LookUpBooksNothing(s: System, user: string)
    requires Inv(s)
    ensures
      var t := LookUp(s, user);
      && t.limit == s.limit && forall u :: UserBooked(t.records, u) == UserBooked(s.records, u)
  {
    if user !in s.table {
      assert LookUp(s, user).records[..|s.records|] == s.records;
    }
  }

  /** One step keeps every user within the limit exactly when it does not overbook the user. */
  lemma UserLimitStep(s: System, step: Step)
    requires Inv(s) && Enabled(s, step) && EachUserWithin(s)
    ensures EachUserWithin(Apply(s, step)) <==> !OverbooksUser(s, step)
  {
    var s' := Apply(s, step);
    match step
    case Arrive(user) => UserLimitArrival(s, user);
    case Expire(i, op) =>
      UserBookedAfterReplace(s, i, s'.records[i], s');
    case Resume(i, op) =>
      BookedAfterStart(s.records[i], op, s.issued);
      UserBookedAfterReplace(s, i, s'.records[i], s');
    case Finish(i, op) =>
      BookedAfterStop(s.records[i], op, s.issued);
      UserBookedAfterReplace(s, i, s'.records[i], s');
  }

  lemma UserLimitArrival(s: System, user: string)
    requires Inv(s) && EachUserWithin(s)
    ensures EachUserWithin(Apply(s, Arrive(user))) <==> !OverbooksUser(s, Arrive(user))
  {
    var t, s' := LookUp(s, user), Apply(s, Arrive(user));
    LookUpKeeps(s, user);
    LookUpBooksNothing(s, user);
    var i := t.table[user];
    assert RecordInv(t.records[i], t.issued);
    BookedAfterStart(t.records[i], t.issued, t.issued);
    UserBookedAfterReplace(t, i, s'.records[i], s');
  }

  ghost predicate UsersAlwaysWithin(s: System, run: seq<Step>)
    requires Executable(s, run)
    decreases |run|
  {
    EachUserWithin(s) && (run != [] ==> UsersAlwaysWithin(Apply(s, run[0]), run[1..]))
  }

  ghost predicate SomeStepOverbooksUser(s: System, run: seq<Step>)
    requires Executable(s, run)
    decreases |run|
  {
    run != [] && (OverbooksUser(s, run[0]) || SomeStepOverbooksUser(Apply(s, run[0]), run[1..]))
  }

  /** Over a whole run every user stays within the limit exactly when no arrival overbooks its user. */
  lemma {:induction false} UserLimitOverRuns(s: System, run: seq<Step>)
    requires Inv(s) && EachUserWithin(s) && Executable(s, run)
    ensures UsersAlwaysWithin(s, run) <==> !SomeStepOverbooksUser(s, run)
    decreases |run|
  {
    hide Apply, EachUserWithin, OverbooksUser, Inv;
    if run != [] {
      UserLimitStep(s, run[0]);
      if !OverbooksUser(s, run[0]) {
        StepKeeps(s, run[0]);
        UserLimitOverRuns(Apply(s, run[0]), run[1..]);
      }
    }
  }

  // ----- lost wake-ups

  /** A callback waits only while every slot is taken or promised. */
  ghost predicate Busy(s: System) {
    forall i :: 0 <= i < |s.records| && s.records[i].queue != [] ==> Booked(s.records[i]) >= s.limit
  }

  /** A slot is spent on a callback whose caller gave up, while others stay queued behind it. */
  predicate LosesWakeUp(s: System, step: Step) {
    && step.Finish? && step.rec < |s.records|
    && var r := s.records[step.rec];
       |r.queue| >= 2 && r.queue[0] in r.expired && Booked(r) <= s.limit
  }

  ghost predicate RecordBusy(r: Record, limit: int) {
    r.queue != [] ==> Booked(r) >= limit
  }

  /** Replacing one record decides by that record alone whether some waiter is behind a free slot. */
  lemma BusyAfterReplace(t: System, i: nat, r: Record, s': System)
    requires Busy(t) && i < |t.records| && s'.records == t.records[i := r] && s'.limit == t.limit
    ensures Busy(s') <==> RecordBusy(r, t.limit)
    ensures RecordBusy(t.records[i], t.limit)
  {
    hide Booked;
    assert s'.records[i] == r;
    assert forall j :: 0 <= j < |t.records| && j != i ==> s'.records[j] == t.records[j];
  }

  /** One step leaves a waiter behind a free slot exactly when it loses a wake-up. */
  lemma BusyStep(s: System, step: Step)
    requires Inv(s) && Enabled(s, step) && Busy(s)
    ensures Busy(Apply(s, step)) <==> !LosesWakeUp(s, step)
  {
    hide Busy;
    match step
    case Arrive(user) => BusyArrival(s, user);
    case Expire(i, op) =>
      BusyAfterReplace(s, i, Apply(s, step).records[i], Apply(s, step));
    case Resume(i, op) =>
      BookedAfterStart(s.records[i], op, s.issued);
      BusyAfterReplace(s, i, Apply(s, step).records[i], Apply(s, step));
    case Finish(i, op) => BusyFinish(s, i, op);
  }

  lemma BusyArrival(s: System, user: string)
    requires Inv(s) && Busy(s)
    ensures Busy(Apply(s, Arrive(user)))
  {
    var t := LookUp(s, user);
    LookUpKeeps(s, user);
    LookUpStaysBusy(s, user);
    hide LookUp, Busy;
    var i := t.table[user];
    assert RecordInv(t.records[i], t.issued);
    BookedAfterStart(t.records[i], t.issued, t.issued);
    var s' := Apply(s, Arrive(user));
    BusyAfterReplace(t, i, s'.records[i], s');
  }

  lemma BusyFinish(s: System, i: nat, op: Op)
    requires Inv(s) && Enabled(s, Finish(i, op)) && Busy(s)
    ensures Busy(Apply(s, Finish(i, op))) <==> !LosesWakeUp(s, Finish(i, op))
  {
    hide Busy;
    BookedAfterStop(s.records[i], op, s.issued);
    hide Inv;
    var s' := Apply(s, Finish(i, op));
    BusyAfterReplace(s, i, s'.records[i], s');
  }

  lemma LookUpStaysBusy(s: System, user: string)
    requires Busy(s)
    ensures Busy(LookUp(s, user))
  {
    hide Booked;
  }

  ghost predicate AlwaysBusy(s: System, run: seq<Step>)
    requires Executable(s, run)
    decreases |run|
  {
    Busy(s) && (run != [] ==> AlwaysBusy(Apply(s, run[0]), run[1..]))
  }

  ghost predicate SomeWakeUpLost(s: System, run: seq<Step>)
    requires Executable(s, run)
    decreases |run|
  {
    run != [] && (LosesWakeUp(s, run[0]) || SomeWakeUpLost(Apply(s, run[0]), run[1..]))
  }

  lemma {:induction false} BusyOverRuns(s: System, run: seq<Step>)
    requires Inv(s) && Busy(s) && Executable(s, run)
    ensures AlwaysBusy(s, run) <==> !SomeWakeUpLost(s, run)
    decreases |run|
  {
    if run != [] {
      BusyStep(s, run[0]);
      if !LosesWakeUp(s, run[0]) {
        StepKeeps(s, run[0]);
        BusyOverRuns(Apply(s, run[0]), run[1..]);
      }
    }
  }

  /** The three characterisations, for every run of a fresh limiter. */
  lemma FromTheStart(limit: int, run: seq<Step>)
    requires Executable(Initial(limit), run)
    ensures AlwaysWithinLimit(Initial(limit), run) <==> !SomeStepOverbooks(Initial(limit), run)
    ensures UsersAlwaysWithin(Initial(limit), run) <==> !SomeStepOverbooksUser(Initial(limit), run)
    ensures AlwaysBusy(Initial(limit), run) <==> !SomeWakeUpLost(Initial(limit), run)
  {
    LimitOverRuns(Initial(limit), run);
    UserLimitOverRuns(Initial(limit), run);
    BusyOverRuns(Initial(limit), run);
  }

  // ----- runs in which the promises fail

  /** Unfolds the execution of a run by one step. */
  lemma Unfold(s: System, step: Step, rest: seq<Step>)
    requires Enabled(s, step) && Executable(Apply(s, step), rest)
    ensures Executable(s, [step] + rest) && After(s, [step] + rest) == After(Apply(s, step), rest)
  {
    assert ([step] + rest)[1..] == rest;
  }

  /**
   With a limit of one: the first waiter gives up, the running call finishes and wakes
   nobody, and the second waiter stays queued although nothing runs.
   */
  lemma LostWakeUpHappens()
    ensures exists run ::
      && Executable(Initial(1), run)
      && var s := After(Initial(1), run);
         s.activeOps == 0 && |s.records| == 1 && s.records[0] == Record("u", 0, [2], {}, {}, {})
  {
    var s0 := Initial(1);
    var s1 := Apply(s0, Arrive("u"));
    var s2 := Apply(s1, Arrive("u"));
    var s3 := Apply(s2, Arrive("u"));
    var s4 := Apply(s3, Expire(0, 1));
    var s5 := Apply(s4, Finish(0, 0));
    Unfold(s4, Finish(0, 0), []);
    Unfold(s3, Expire(0, 1), [Finish(0, 0)]);
    Unfold(s2, Arrive("u"), [Expire(0, 1)] + [Finish(0, 0)]);
    Unfold(s1, Arrive("u"), [Arrive("u")] + ([Expire(0, 1)] + [Finish(0, 0)]));
    var run := [Arrive("u")] + ([Arrive("u")] + ([Arrive("u")] + ([Expire(0, 1)] + [Finish(0, 0)])));
    Unfold(s0, Arrive("u"), run[1..]);
    assert Executable(Initial(1), run);
  }

  /**
   With a limit of one: a record is dropped while its woken waiter has not entered, the
   next arrival gets a new record, and the user has two calls running.
   */
  lemma LimitIsPerRecord()
    ensures exists run ::
      && Executable(Initial(1), run)
      && var s := After(Initial(1), run);
         |s.records| == 2 && s.records[0].user == s.records[1].user
         && s.records[0].active == 1 && s.records[1].active == 1
  {
    var s0 := Initial(1);
    var s1 := Apply(s0, Arrive("u"));
    var s2 := Apply(s1, Arrive("u"));
    var s3 := Apply(s2, Finish(0, 0));
    var s4 := Apply(s3, Arrive("u"));
    var s5 := Apply(s4, Resume(0, 1));
    Unfold(s4, Resume(0, 1), []);
    Unfold(s3, Arrive("u"), [Resume(0, 1)]);
    Unfold(s2, Finish(0, 0), [Arrive("u")] + [Resume(0, 1)]);
    Unfold(s1, Arrive("u"), [Finish(0, 0)] + ([Arrive("u")] + [Resume(0, 1)]));
    var run := [Arrive("u")] + ([Arrive("u")] + ([Finish(0, 0)] + ([Arrive("u")] + [Resume(0, 1)])));
    Unfold(s0, Arrive("u"), run[1..]);
    assert Executable(Initial(1), run);
  }

  /** With a limit of two: an arrival overtakes a woken waiter and three calls run at once. */
  lemma OverbookingHappens()
    ensures exists run ::
      && Executable(Initial(2), run)
      && var s := After(Initial(2), run);
         |s.records| == 1 && s.records[0].active == 3
  {
    var s0 := Initial(2);
    var s1 := Apply(s0, Arrive("u"));
    var s2 := Apply(s1, Arrive("u"));
    var s3 := Apply(s2, Arrive("u"));
    var s4 := Apply(s3, Finish(0, 0));
    var s5 := Apply(s4, Arrive("u"));
    var s6 := Apply(s5, Resume(0, 2));
    Unfold(s5, Resume(0, 2), []);
    Unfold(s4, Arrive("u"), [Resume(0, 2)]);
    Unfold(s3, Finish(0, 0), [Arrive("u")] + [Resume(0, 2)]);
    Unfold(s2, Arrive("u"), [Finish(0, 0)] + ([Arrive("u")] + [Resume(0, 2)]));
    var tail := [Arrive("u")] + ([Finish(0, 0)] + ([Arrive("u")] + [Resume(0, 2)]));
    Unfold(s1, Arrive("u"), tail);
    Unfold(s0, Arrive("u"), [Arrive("u")] + tail);
    assert Executable(Initial(2), [Arrive("u")] + ([Arrive("u")] + tail));
  }
}
