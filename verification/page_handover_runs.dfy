/** Runs of the server in which the protection of a new page fails. */
module PageHandOverRuns {
  import opened Optional
  import Leases = PageLeases
  import opened PageHandOver

  lemma {:induction false} Concat(s: State, first: seq<Step>, rest: seq<Step>)
    requires Executable(s, first) && Executable(After(s, first), rest)
    ensures Executable(s, first + rest) && After(s, first + rest) == After(After(s, first), rest)
    decreases |first|
  {
    hide Apply;
    if first == [] {
      assert first + rest == rest;
    } else {
      assert (first + rest)[1..] == first[1..] + rest;
      Concat(Apply(s, first[0]), first[1..], rest);
    }
  }

  /** Some run leads from one state to the other. */
  ghost predicate Reaches(s: State, t: State) {
    exists run :: Executable(s, run) && After(s, run) == t
  }

  ghost predicate Leads(s: State, step: Step, t: State) {
    Enabled(s, step) && Apply(s, step) == t
  }

  lemma ReachesNext(s: State, t: State, step: Step, u: State)
    requires Reaches(s, t) && Leads(t, step, u)
    ensures Reaches(s, u)
  {
    hide Apply, Enabled;
    var run :| Executable(s, run) && After(s, run) == t;
    assert Executable(u, [step][1..]);
    Concat(s, run, [step]);
  }

  lemma ReachesTrans(s: State, t: State, u: State)
    requires Reaches(s, t) && Reaches(t, u)
    ensures Reaches(s, u)
  {
    hide Apply, Enabled;
    var first :| Executable(s, first) && After(s, first) == t;
    var rest :| Executable(t, rest) && After(t, rest) == u;
    Concat(s, first, rest);
  }

  lemma ReachesSelf(s: State)
    ensures Reaches(s, s)
  {
    assert Executable(s, []) && After(s, []) == s;
  }

  /** One session, in which the newest creation is in the given phase. */
  function Stage(s: State, x: Session, tab: string, early: Option<nat>, phase: Phase): State {
    s.(sessions := [x], creations := s.creations + [Creation(0, "k", tab, early, phase)])
  }

  lemma StageBegins(s: State, context: set<nat>, tab: string)
    requires s.sessions == [Session(false, context, map[], map[])]
    ensures Leads(s, Begin(0, "k", tab, false),
      Stage(s, Session(false, context, map[|s.creations| := None], map[]), tab, None, Opening))
  {
    var t := Apply(s, Begin(0, "k", tab, false));
    assert t.sessions == [Session(false, context, map[|s.creations| := None], map[])] && t.boxes == s.boxes;
    assert t.creations == s.creations + [Creation(0, "k", tab, None, Opening)];
  }

  lemma StageOpens(s: State, context: set<nat>, tab: string, early: Option<nat>)
    ensures
      var c, p := |s.creations|, s.pages;
      Leads(Stage(s, Session(false, context, map[c := None], map[]), tab, early, Opening), Open(c),
            Stage(s, Session(false, context + {p}, map[c := None], map[]), tab, early, Opened(p)).(pages := p + 1))
  {
    var c, p := |s.creations|, s.pages;
    var t := Apply(Stage(s, Session(false, context, map[c := None], map[]), tab, early, Opening), Open(c));
    assert t.sessions == [Session(false, context + {p}, map[c := None], map[])] && t.boxes == s.boxes;
    assert t.creations == s.creations + [Creation(0, "k", tab, early, Opened(p))];
  }

  lemma StageHolds(s: State, context: set<nat>, tab: string, early: Option<nat>, p: nat)
    ensures
      var c := |s.creations|;
      Leads(Stage(s, Session(false, context, map[c := None], map[]), tab, early, Opened(p)), Hold(c),
            Stage(s, Session(false, context, map[c := Some(p)], map[]), tab, early, Leased(p)))
  {
    var c := |s.creations|;
    var t := Apply(Stage(s, Session(false, context, map[c := None], map[]), tab, early, Opened(p)), Hold(c));
    assert t.sessions[0].leases == map[c := Some(p)];
    assert t.sessions == [Session(false, context, map[c := Some(p)], map[])] && t.boxes == s.boxes;
    assert t.creations == s.creations + [Creation(0, "k", tab, early, Leased(p))];
  }

  /** A late creation registers a new group; an early one fills the group object it holds. */
  lemma StageAttaches(s: State, context: set<nat>, tab: string, early: Option<nat>, p: nat)
    requires early.Some? ==> s.boxes == [map[]] && early.value == 0
    ensures
      var c, g := |s.creations|, if early.Some? then 0 else |s.boxes|;
      Leads(Stage(s, Session(false, context, map[c := Some(p)], map[]), tab, early, Leased(p)), Attach(c),
            Stage(s, Session(false, context, map[c := Some(p)], if early.Some? then map[] else map["k" := g]),
                  tab, early, Attached(p, g))
              .(boxes := if early.Some? then [map[tab := p]] else s.boxes + [map[tab := p]]))
  {
    var c, g := |s.creations|, if early.Some? then 0 else |s.boxes|;
    var u := Apply(Stage(s, Session(false, context, map[c := Some(p)], map[]), tab, early, Leased(p)), Attach(c));
    assert u.sessions ==
      [Session(false, context, map[c := Some(p)], if early.Some? then map[] else map["k" := g])];
    assert u.boxes == if early.Some? then [map[tab := p]] else s.boxes + [map[tab := p]];
    assert u.creations == s.creations + [Creation(0, "k", tab, early, Attached(p, g))];
  }

  lemma StageReleases(s: State, context: set<nat>, groups: map<string, nat>, tab: string, early: Option<nat>, p: nat, g: nat)
    ensures
      var c := |s.creations|;
      Leads(Stage(s, Session(false, context, map[c := Some(p)], groups), tab, early, Attached(p, g)), Release(c),
            Stage(s, Session(false, context, map[], groups), tab, early, Done(p, g)))
  {
    var c := |s.creations|;
    var v := Apply(Stage(s, Session(false, context, map[c := Some(p)], groups), tab, early, Attached(p, g)), Release(c));
    assert v.sessions[0].leases == map[];
    assert v.sessions == [Session(false, context, map[], groups)] && v.boxes == s.boxes;
    assert v.creations == s.creations + [Creation(0, "k", tab, early, Done(p, g))];
  }

  /** Where a creation that has begun ends up when nothing interferes. */
  function HandedOver(s: State, context: set<nat>, tab: string, early: Option<nat>): State {
    var p, g := s.pages, if early.Some? then 0 else |s.boxes|;
    Stage(s, Session(false, context + {p}, map[], if early.Some? then map[] else map["k" := g]), tab, early, Done(p, g))
      .(boxes := if early.Some? then [map[tab := p]] else s.boxes + [map[tab := p]], pages := p + 1)
  }

  lemma HandsOver(s: State, context: set<nat>, tab: string, early: Option<nat>)
    requires early.Some? ==> s.boxes == [map[]] && early.value == 0
    ensures Reaches(Stage(s, Session(false, context, map[|s.creations| := None], map[]), tab, early, Opening),
                    HandedOver(s, context, tab, early))
  {
    hide Apply, Enabled, Reaches;
    var c, p, g := |s.creations|, s.pages, if early.Some? then 0 else |s.boxes|;
    var t, x := s.(pages := p + 1), context + {p};
    var groups := if early.Some? then map[] else map["k" := g];
    var full := t.(boxes := if early.Some? then [map[tab := p]] else s.boxes + [map[tab := p]]);
    var begun := Stage(s, Session(false, context, map[c := None], map[]), tab, early, Opening);
    ReachesSelf(begun);
    StageOpens(s, context, tab, early);
    ReachesNext(begun, begun, Open(c), Stage(t, Session(false, x, map[c := None], map[]), tab, early, Opened(p)));
    StageHolds(t, x, tab, early, p);
    ReachesNext(begun, Stage(t, Session(false, x, map[c := None], map[]), tab, early, Opened(p)),
                Hold(c), Stage(t, Session(false, x, map[c := Some(p)], map[]), tab, early, Leased(p)));
    StageAttaches(t, x, tab, early, p);
    ReachesNext(begun, Stage(t, Session(false, x, map[c := Some(p)], map[]), tab, early, Leased(p)),
                Attach(c), Stage(full, Session(false, x, map[c := Some(p)], groups), tab, early, Attached(p, g)));
    StageReleases(full, x, groups, tab, early, p, g);
    ReachesNext(begun, Stage(full, Session(false, x, map[c := Some(p)], groups), tab, early, Attached(p, g)),
                Release(c), HandedOver(s, context, tab, early));
  }

  /** A page that is listed and that nothing protects is closed by the next tick. */
  lemma OneTick(s: State, p: nat)
    requires |s.sessions| == 1 && 0 in s.live && !s.sessions[0].closing && p in s.sessions[0].context
    requires !IsRegistered(s, s.sessions[0], p) && !Leases.Protects(s.sessions[0].leases, p)
    ensures Enabled(s, OrphanTick(0))
    ensures
      var t := Apply(s, OrphanTick(0));
      && p in t.reaped && t.removed == s.removed && t.creations == s.creations && |t.sessions| == 1
      && t.sessions[0].groups == s.sessions[0].groups && t.sessions[0].leases == s.sessions[0].leases
  {
    assert p in Orphans(s, s.sessions[0]);
    assert Apply(s, OrphanTick(0)).creations == s.creations;
  }

  const FIRST := EMPTY.(sessions := [FRESH_SESSION], live := {0})

  lemma FirstSession()
    ensures Reaches(EMPTY, FIRST)
  {
    assert Leads(EMPTY, NewSession, FIRST);
    ReachesSelf(EMPTY);
    ReachesNext(EMPTY, EMPTY, NewSession, FIRST);
  }

  /** Before the lease holds it, a page the browser already lists can be closed as an orphan. */
  lemma PageCanBeReapedBeforeItIsHeld() returns (s: State)
    ensures Reaches(EMPTY, s) && 0 in s.reaped && 0 !in s.removed
    ensures s.creations == [Creation(0, "k", "t", None, Opened(0))]
  {
    hide Apply, Enabled, Reaches;
    FirstSession();
    StageBegins(FIRST, {}, "t");
    var s2 := Stage(FIRST, Session(false, {}, map[0 := None], map[]), "t", None, Opening);
    ReachesNext(EMPTY, FIRST, Begin(0, "k", "t", false), s2);
    StageOpens(FIRST, {}, "t", None);
    var s3 := Stage(FIRST, Session(false, {} + {0}, map[0 := None], map[]), "t", None, Opened(0)).(pages := 1);
    ReachesNext(EMPTY, s2, Open(0), s3);
    OneTick(s3, 0);
    s := Apply(s3, OrphanTick(0));
    ReachesNext(EMPTY, s3, OrphanTick(0), s);
  }

  lemma EarlyBegins()
    ensures Leads(FIRST, Begin(0, "k", "t", true),
      Stage(FIRST, Session(false, {}, map[0 := None], map["k" := 0]), "t", Some(0), Opening).(boxes := [map[]]))
  {
    var t := Apply(FIRST, Begin(0, "k", "t", true));
    assert t.sessions == [Session(false, {}, map[0 := None], map["k" := 0])] && t.boxes == [map[]];
    assert t.creations == [Creation(0, "k", "t", Some(0), Opening)];
  }

  lemma EmptyGroupIsDropped(s: State, x: Session)
    requires s.sessions == [x] && x.groups == map["k" := 0] && s.boxes == [map[]]
    ensures Leads(s, DropEmptyGroup(0, "k"), s.(sessions := [x.(groups := map[])]))
  {
    var t := Apply(s, DropEmptyGroup(0, "k"));
    assert t.sessions[0].groups == map[];
    assert t.sessions == [x.(groups := map[])] && t.boxes == s.boxes && t.creations == s.creations;
  }

  /**
   The inactivity reaper drops the still empty group between the early look-up and the
   registration; the new tab goes into the dropped group and its page is closed as an orphan
   although nobody removed the tab.
   */
  lemma EarlyLookUpLosesThePage() returns (s: State)
    ensures Reaches(EMPTY, s) && 0 in s.reaped && 0 !in s.removed
    ensures s.creations == [Creation(0, "k", "t", Some(0), Done(0, 0))]
  {
    hide Apply, Enabled, Reaches;
    var base := FIRST.(boxes := [map[]]);
    FirstSession();
    EarlyBegins();
    var held := Stage(base, Session(false, {}, map[0 := None], map["k" := 0]), "t", Some(0), Opening);
    EmptyGroupIsDropped(held, held.sessions[0]);
    var dropped := Stage(base, Session(false, {}, map[0 := None], map[]), "t", Some(0), Opening);
    ReachesNext(EMPTY, FIRST, Begin(0, "k", "t", true), held);
    ReachesNext(EMPTY, held, DropEmptyGroup(0, "k"), dropped);
    HandsOver(base, {}, "t", Some(0));
    var done := HandedOver(base, {}, "t", Some(0));
    ReachesTrans(EMPTY, dropped, done);
    OneTick(done, 0);
    s := Apply(done, OrphanTick(0));
    ReachesNext(EMPTY, done, OrphanTick(0), s);
  }

  /** A request to close tab "a" of group object 0. */
  const ASKED := Removal(0, "k", 0, Some("a"), true)

  lemma Asks(s: State)
    requires s.sessions == [Session(false, {0}, map[], map["k" := 0])] && s.boxes == [map["a" := 0]]
    ensures Leads(s, StartRemoval(0, "k", Some("a")), s.(removals := s.removals + [ASKED]))
  {
    var t := Apply(s, StartRemoval(0, "k", Some("a")));
    assert t.sessions == s.sessions && t.boxes == s.boxes && t.creations == s.creations;
  }

  lemma FirstEnds(s: State)
    requires s.removals == [ASKED, ASKED] && s.removed == {}
    requires s.sessions == [Session(false, {0}, map[], map["k" := 0])] && s.boxes == [map["a" := 0]]
    ensures Leads(s, EndRemoval(0), s.(sessions := [Session(false, {0}, map[], map[])], boxes := [map[]],
      removals := [ASKED.(pending := false), ASKED], removed := {0}))
  {
    var t := Apply(s, EndRemoval(0));
    assert s.boxes[0] - {"a"} == map[];
    assert t.sessions[0].groups == map[];
    assert t.sessions == [Session(false, {0}, map[], map[])] && t.boxes == [map[]] && t.creations == s.creations;
  }

  /** The second request finds its own group empty and drops the key of the new one. */
  lemma SecondEnds(s: State, x: Session)
    requires s.removals == [ASKED.(pending := false), ASKED] && x.groups == map["k" := 1] && !x.closing
    requires s.sessions == [x] && s.boxes == [map[], map["b" := 1]]
    ensures Enabled(s, EndRemoval(1))
    ensures
      var t := Apply(s, EndRemoval(1));
      && t.sessions == [x.(groups := map[])] && t.creations == s.creations && t.removed == s.removed && t.live == s.live
  {
    var t := Apply(s, EndRemoval(1));
    assert s.boxes[0] - {"a"} == map[];
    assert t.sessions[0].groups == map[];
    assert t.creations == s.creations;
  }

  lemma CloseAlone(s: State)
    requires |s.sessions| == 1 && s.sessions[0].groups == map[] && s.sessions[0].leases == map[]
    ensures Enabled(s, CloseIfEmpty(0))
    ensures
      var t := Apply(s, CloseIfEmpty(0));
      0 in t.emptied && t.creations == s.creations && t.removed == s.removed && t.reaped == s.reaped
  {
    assert Apply(s, CloseIfEmpty(0)).creations == s.creations;
  }

  /** The state the first of two requests to close tab "a" leaves. */
  lemma AfterFirstRequest() returns (s: State)
    ensures Reaches(EMPTY, s) && s.live == {0} && s.removed == {0} && s.pages == 1 && |s.creations| == 1
    ensures s.sessions == [Session(false, {0}, map[], map[])] && s.boxes == [map[]]
    ensures s.removals == [ASKED.(pending := false), ASKED]
  {
    hide Apply, Enabled, Reaches;
    FirstSession();
    StageBegins(FIRST, {}, "a");
    var begun := Stage(FIRST, Session(false, {}, map[0 := None], map[]), "a", None, Opening);
    ReachesNext(EMPTY, FIRST, Begin(0, "k", "a", false), begun);
    HandsOver(FIRST, {}, "a", None);
    var done := HandedOver(FIRST, {}, "a", None);
    ReachesTrans(EMPTY, begun, done);
    assert {} + {0} == {0} && done.boxes == [map["a" := 0]];
    Asks(done);
    Asks(done.(removals := [ASKED]));
    assert [] + [ASKED] == [ASKED] && [ASKED] + [ASKED] == [ASKED, ASKED];
    var ask := StartRemoval(0, "k", Some("a"));
    ReachesNext(EMPTY, done, ask, done.(removals := [ASKED]));
    ReachesNext(EMPTY, done.(removals := [ASKED]), ask, done.(removals := [ASKED, ASKED]));
    FirstEnds(done.(removals := [ASKED, ASKED]));
    s := Apply(done.(removals := [ASKED, ASKED]), EndRemoval(0));
    ReachesNext(EMPTY, done.(removals := [ASKED, ASKED]), EndRemoval(0), s);
  }

  /**
   Two overlapping requests to close one tab: the second one ends after a new tab was handed
   over under the same key, and unregisters it. Its page is closed as an orphan and its
   session as empty, although nobody removed the tab and its creation looked the group up late.
   */
  lemma StaleRemovalLosesThePage() returns (s: State)
    ensures Reaches(EMPTY, s) && 1 in s.reaped && 1 !in s.removed && 0 in s.emptied
    ensures |s.creations| == 2 && s.creations[1] == Creation(0, "k", "b", None, Done(1, 1))
  {
    hide Apply, Enabled, Reaches;
    var left := AfterFirstRequest();
    StageBegins(left, {0}, "b");
    var begun := Stage(left, Session(false, {0}, map[1 := None], map[]), "b", None, Opening);
    ReachesNext(EMPTY, left, Begin(0, "k", "b", false), begun);
    HandsOver(left, {0}, "b", None);
    var done := HandedOver(left, {0}, "b", None);
    ReachesTrans(EMPTY, begun, done);
    SecondEnds(done, Session(false, {0} + {1}, map[], map["k" := 1]));
    var lost := Apply(done, EndRemoval(1));
    ReachesNext(EMPTY, done, EndRemoval(1), lost);
    OneTick(lost, 1);
    var ticked := Apply(lost, OrphanTick(0));
    ReachesNext(EMPTY, lost, OrphanTick(0), ticked);
    CloseAlone(ticked);
    s := Apply(ticked, CloseIfEmpty(0));
    ReachesNext(EMPTY, ticked, CloseIfEmpty(0), s);
  }
}
