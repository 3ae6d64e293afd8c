/**
 The hand-over of a new page from its lease to a tab group, under every interleaving with
 requests that close tabs and with the reapers. One lease belongs to one creation. Group
 objects have an identity of their own, because a creation, or a request that closes a tab,
 may hold a group object that the session has dropped or replaced meanwhile.
 */
module PageHandOver {
  import opened Optional
  import Leases = PageLeases

  /**
   `context` is what the browser lists, `leases` maps a creation to the page it protects,
   `groups` maps a session key to the group object registered under it.
   */
  datatype Session = Session(
    closing: bool,
    context: set<nat>,
    leases: map<nat, Option<nat>>,
    groups: map<string, nat>
  )

  /** An attached page is in the group object `group`, which need not be registered any more. */
  datatype Phase =
    | Opening
    | Opened(page: nat)
    | Leased(page: nat)
    | Attached(page: nat, group: nat)
    | Done(page: nat, group: nat)
    | Failed

  /**
   One creation. It looks its group up either before the page is opened (`early`) or in
   the step that registers the tab.
   */
  datatype Creation = Creation(session: nat, key: string, tab: string, early: Option<nat>, phase: Phase)

  /**
   A request to close one tab, or the whole group, that looked the group up and waits for
   pages to close. Afterwards it drops the key, whatever is registered under it by then.
   */
  datatype Removal = Removal(session: nat, key: string, group: nat, tab: Option<string>, pending: bool)

  /**
   `live` are the sessions in the session map, `boxes` the group objects, `removed` the
   pages whose tab was removed or replaced, `reaped` those closed by the orphan reaper and
   `emptied` the sessions closed by the empty-session check.
   */
  datatype State = State(
    sessions: seq<Session>,
    live: set<nat>,
    boxes: seq<map<string, nat>>,
    creations: seq<Creation>,
    removals: seq<Removal>,
    pages: nat,
    removed: set<nat>,
    reaped: set<nat>,
    emptied: set<nat>
  )

  /**
   What runs between two suspension points. A creation begins by acquiring its lease, the
   browser lists its page (`Open`), the lease gets the page (`Hold`), the tab is put into a
   group (`Attach`) and the lease is released; or opening fails, or the page is closed again
   (`Abort`). A pop-up is listed and registered at once; a stray page is one nobody asked
   for. A tab is taken out of a group object in one stretch (`RemoveTab`), or by a request
   that waits in between (`StartRemoval`, `EndRemoval`). The reapers drop empty groups, close
   empty sessions and close orphans. A session is marked as closing, its context ends, and it
   leaves the session map, in any order.
   */
  datatype Step =
    | NewSession
    | Begin(session: nat, key: string, tab: string, early: bool)
    | Open(creation: nat)
    | Fail(creation: nat)
    | Hold(creation: nat)
    | Attach(creation: nat)
    | Release(creation: nat)
    | Abort(creation: nat)
    | Popup(session: nat, key: string, tab: string)
    | Stray(session: nat)
    | RemoveTab(group: nat, tab: string)
    | StartRemoval(session: nat, key: string, which: Option<string>)
    | EndRemoval(removal: nat)
    | DropEmptyGroup(session: nat, key: string)
    | CloseIfEmpty(session: nat)
    | Close(session: nat)
    | EndContext(session: nat)
    | Forget(session: nat)
    | OrphanTick(session: nat)

  const EMPTY := State([], {}, [], [], [], 0, {}, {}, {})

  // ----- what protects a page

  predicate InBox(box: map<string, nat>, page: nat) {
    page in box.Values
  }

  predicate IsRegistered(s: State, x: Session, page: nat) {
    exists key :: key in x.groups && x.groups[key] < |s.boxes| && InBox(s.boxes[x.groups[key]], page)
  }

  function Orphans(s: State, x: Session): set<nat> {
    set p | p in x.context && !IsRegistered(s, x, p) && !Leases.Protects(x.leases, p)
  }

  // ----- the steps

  predicate Known(s: State, c: nat) {
    c < |s.creations| && s.creations[c].session < |s.sessions|
  }

  predicate Enabled(s: State, step: Step) {
    match step
    case NewSession => true
    case Begin(i, _, _, _) => i < |s.sessions|
    case Open(c) => Known(s, c) && s.creations[c].phase.Opening?
    case Fail(c) => Known(s, c) && s.creations[c].phase.Opening?
    case Hold(c) => Known(s, c) && s.creations[c].phase.Opened?
    case Attach(c) => Known(s, c) && s.creations[c].phase.Leased?
    case Release(c) => Known(s, c) && s.creations[c].phase.Attached?
    case Abort(c) => Known(s, c) && s.creations[c].phase.Leased?
    case Popup(i, _, _) => i < |s.sessions|
    case Stray(i) => i < |s.sessions|
    case RemoveTab(g, tab) => g < |s.boxes| && tab in s.boxes[g]
    case StartRemoval(i, key, which) =>
      && i < |s.sessions| && key in s.sessions[i].groups && s.sessions[i].groups[key] < |s.boxes|
      && (which.Some? ==> which.value in s.boxes[s.sessions[i].groups[key]])
    case EndRemoval(r) => r < |s.removals| && s.removals[r].pending && s.removals[r].session < |s.sessions|
    case DropEmptyGroup(i, key) =>
      && i < |s.sessions| && key in s.sessions[i].groups
      && s.sessions[i].groups[key] < |s.boxes| && s.boxes[s.sessions[i].groups[key]] == map[]
    case CloseIfEmpty(i) => i < |s.sessions|
    case Close(i) => i < |s.sessions|
    case EndContext(i) => i < |s.sessions|
    case Forget(i) => i < |s.sessions|
    case OrphanTick(i) => i < |s.sessions|
  }

  // What a step does, one component of the state at a time.

  /** The creation a step moves on. */
  predicate Moves(step: Step, c: nat) {
    && (step.Open? || step.Fail? || step.Hold? || step.Attach? || step.Release? || step.Abort?)
    && step.creation == c
  }

  /** The session and key whose group a step looks up, creating the group when it is missing. */
  function LooksUp(s: State, step: Step): Option<(nat, string)>
    requires Enabled(s, step)
  {
    match step
    case Begin(i, key, _, early) => if early then Some((i, key)) else None
    case Attach(c) => if s.creations[c].early.None? then Some((s.creations[c].session, s.creations[c].key)) else None
    case Popup(i, key, _) => Some((i, key))
    case _ => None
  }

  predicate Creates(s: State, step: Step)
    requires Enabled(s, step)
  {
    LooksUp(s, step).Some? && LooksUp(s, step).value.1 !in s.sessions[LooksUp(s, step).value.0].groups
  }

  /** The group object registered under the key, or the one that is created for it. */
  function GroupUnder(s: State, i: nat, key: string): nat
    requires i < |s.sessions|
  {
    if key in s.sessions[i].groups then s.sessions[i].groups[key] else |s.boxes|
  }

  /** Whether an ending removal drops its key: always for a whole group, otherwise when the group it holds is empty. */
  predicate Empties(s: State, r: Removal) {
    r.tab.None? || (r.group < |s.boxes| && s.boxes[r.group] - {r.tab.value} == map[])
  }

  /** The session and key a step unregisters. */
  function Drops(s: State, step: Step): Option<(nat, string)>
    requires Enabled(s, step)
  {
    match step
    case EndRemoval(d) => if Empties(s, s.removals[d]) then Some((s.removals[d].session, s.removals[d].key)) else None
    case DropEmptyGroup(i, key) => Some((i, key))
    case _ => None
  }

  function GroupsAfter(s: State, step: Step, i: nat): map<string, nat>
    requires Enabled(s, step) && i < |s.sessions|
  {
    var groups := s.sessions[i].groups;
    if Creates(s, step) && LooksUp(s, step).value.0 == i then groups[LooksUp(s, step).value.1 := |s.boxes|]
    else if Drops(s, step).Some? && Drops(s, step).value.0 == i then groups - {Drops(s, step).value.1}
    else groups
  }

  /** Where a step puts a page: group object, tab and page. A pop-up is listed and registered in one stretch. */
  function Puts(s: State, step: Step): Option<(nat, string, nat)>
    requires Enabled(s, step)
  {
    match step
    case Attach(c) => Some((Target(s, s.creations[c]), s.creations[c].tab, s.creations[c].phase.page))
    case Popup(i, key, tab) => Some((GroupUnder(s, i, key), tab, s.pages))
    case _ => None
  }

  /** The group object a creation registers its tab in. */
  function Target(s: State, k: Creation): nat
    requires k.session < |s.sessions|
  {
    if k.early.Some? then k.early.value else GroupUnder(s, k.session, k.key)
  }

  /** The tab a step takes out of a group object. */
  function Takes(s: State, step: Step): Option<(nat, string)>
    requires Enabled(s, step)
  {
    match step
    case RemoveTab(g, tab) => Some((g, tab))
    case EndRemoval(d) =>
      if s.removals[d].tab.Some? then Some((s.removals[d].group, s.removals[d].tab.value)) else None
    case _ => None
  }

  function BoxAfter(s: State, step: Step, g: nat): map<string, nat>
    requires Enabled(s, step)
  {
    var box := if g < |s.boxes| then s.boxes[g] else map[];
    if Puts(s, step).Some? && Puts(s, step).value.0 == g then Store(box, Puts(s, step).value.1, Puts(s, step).value.2)
    else if Takes(s, step).Some? && Takes(s, step).value.0 == g then box - {Takes(s, step).value.1}
    else box
  }

  function Store(box: map<string, nat>, tab: string, page: nat): map<string, nat> {
    box[tab := page]
  }

  /** Pages whose tab a step takes away or replaces. */
  function Removes(s: State, step: Step): set<nat>
    requires Enabled(s, step)
  {
    match step
    case Abort(c) => {s.creations[c].phase.page}
    case EndRemoval(d) =>
      var r := s.removals[d];
      if r.group >= |s.boxes| then {}
      else if r.tab.None? then s.boxes[r.group].Values
      else Slot(s, r.group, r.tab.value)
    case RemoveTab(g, tab) => Slot(s, g, tab)
    case _ => if Puts(s, step).Some? then Slot(s, Puts(s, step).value.0, Puts(s, step).value.1) else {}
  }

  function Slot(s: State, g: nat, tab: string): set<nat> {
    if g < |s.boxes| && tab in s.boxes[g] then {s.boxes[g][tab]} else {}
  }

  function LeasesAfter(s: State, step: Step, i: nat): map<nat, Option<nat>>
    requires Enabled(s, step) && i < |s.sessions|
  {
    var leases := s.sessions[i].leases;
    match step
    case Begin(j, _, _, _) => if i == j then Leases.Acquired(leases, |s.creations|) else leases
    case Hold(c) =>
      if i == s.creations[c].session then Leases.WithPage(leases, c, s.creations[c].phase.page) else leases
    case Fail(c) => if i == s.creations[c].session then Leases.Released(leases, c) else leases
    case Release(c) => if i == s.creations[c].session then Leases.Released(leases, c) else leases
    case Abort(c) => if i == s.creations[c].session then Leases.Released(leases, c) else leases
    case _ => leases
  }

  function PhaseAfter(s: State, step: Step, c: nat): Phase
    requires Enabled(s, step) && c < |s.creations|
  {
    var phase := s.creations[c].phase;
    if !Moves(step, c) then phase
    else
      match step
      case Open(_) => Opened(s.pages)
      case Hold(_) => Leased(phase.page)
      case Attach(_) => Attached(phase.page, Target(s, s.creations[c]))
      case Release(_) => Done(phase.page, phase.group)
      case _ => Failed
  }

  function NewCreations(s: State, step: Step): seq<Creation>
    requires Enabled(s, step)
  {
    match step
    case Begin(i, key, tab, early) =>
      [Creation(i, key, tab, if early then Some(GroupUnder(s, i, key)) else None, Opening)]
    case Popup(i, key, tab) => [Creation(i, key, tab, None, Done(s.pages, GroupUnder(s, i, key)))]
    case _ => []
  }

  /** The session in which a step makes the browser list one more page. */
  function Lists(s: State, step: Step): Option<nat>
    requires Enabled(s, step)
  {
    match step
    case Open(c) => Some(s.creations[c].session)
    case Popup(i, _, _) => Some(i)
    case Stray(i) => Some(i)
    case _ => None
  }

  /** The pages a tick of the orphan reaper closes. */
  function Reaps(s: State, step: Step): set<nat>
    requires Enabled(s, step)
  {
    if step.OrphanTick? && step.session in s.live && !s.sessions[step.session].closing
    then Orphans(s, s.sessions[step.session])
    else {}
  }

  function ContextAfter(s: State, step: Step, i: nat): set<nat>
    requires Enabled(s, step) && i < |s.sessions|
  {
    var context := s.sessions[i].context;
    if Lists(s, step) == Some(i) then context + {s.pages}
    else if step == EndContext(i) then {}
    else if step == OrphanTick(i) then context - Reaps(s, step)
    else context
  }

  predicate ClosesAsEmpty(s: State, step: Step, i: nat)
    requires i < |s.sessions|
  {
    step == CloseIfEmpty(i) && s.sessions[i].groups == map[] && s.sessions[i].leases == map[]
  }

  function SessionAfter(s: State, step: Step, i: nat): Session
    requires Enabled(s, step) && i < |s.sessions|
  {
    Session(
      s.sessions[i].closing || step == Close(i) || ClosesAsEmpty(s, step, i),
      ContextAfter(s, step, i),
      LeasesAfter(s, step, i),
      GroupsAfter(s, step, i))
  }

  const FRESH_SESSION := Session(false, {}, map[], map[])

  function Apply(s: State, step: Step): State
    requires Enabled(s, step)
  {
    State(
      seq(|s.sessions|, i requires 0 <= i < |s.sessions| => SessionAfter(s, step, i))
        + (if step.NewSession? then [FRESH_SESSION] else []),
      if step.NewSession? then s.live + {|s.sessions|} else if step.Forget? then s.live - {step.session} else s.live,
      seq(|s.boxes| + if Creates(s, step) then 1 else 0, g requires 0 <= g => BoxAfter(s, step, g)),
      seq(|s.creations|, c requires 0 <= c < |s.creations| => s.creations[c].(phase := PhaseAfter(s, step, c)))
        + NewCreations(s, step),
      match step
        case StartRemoval(i, key, which) => s.removals + [Removal(i, key, s.sessions[i].groups[key], which, true)]
        case EndRemoval(d) => s.removals[d := s.removals[d].(pending := false)]
        case _ => s.removals,
      if Lists(s, step).Some? then s.pages + 1 else s.pages,
      s.removed + Removes(s, step),
      s.reaped + Reaps(s, step),
      s.emptied + set i | 0 <= i < |s.sessions| && ClosesAsEmpty(s, step, i))
  }

  // ----- what every step keeps

  function PageOf(p: Phase): Option<nat> {
    match p
    case Opened(q) => Some(q)
    case Leased(q) => Some(q)
    case Attached(q, _) => Some(q)
    case Done(q, _) => Some(q)
    case _ => None
  }

  predicate InGroup(p: Phase) { p.Attached? || p.Done? }

  /** The lease lives from the beginning to the hand-over, and holds the page once that is open. */
  ghost predicate LeaseOk(s: State, c: nat)
    requires Known(s, c)
  {
    var leases := s.sessions[s.creations[c].session].leases;
    match s.creations[c].phase
    case Opening => c in leases && leases[c] == None
    case Opened(_) => c in leases && leases[c] == None
    case Leased(p) => c in leases && leases[c] == Some(p)
    case Attached(p, _) => c in leases && leases[c] == Some(p)
    case Done(_, _) => c !in leases
    case Failed => c !in leases
  }

  /** A page whose tab was not removed is in the group object it was put into. */
  ghost predicate SlotOk(s: State, c: nat)
    requires c < |s.creations|
  {
    var k := s.creations[c];
    && (k.early.Some? ==> k.early.value < |s.boxes|)
    && (InGroup(k.phase) ==>
          && k.phase.group < |s.boxes|
          && (k.phase.page !in s.removed ==>
                k.tab in s.boxes[k.phase.group] && s.boxes[k.phase.group][k.tab] == k.phase.page))
  }

  /** A page is listed by its own session only. */
  ghost predicate PlaceOk(s: State, c: nat)
    requires c < |s.creations|
  {
    var k := s.creations[c];
    PageOf(k.phase).Some? ==>
      && PageOf(k.phase).value < s.pages
      && forall i :: 0 <= i < |s.sessions| && i != k.session ==> PageOf(k.phase).value !in s.sessions[i].context
  }

  /** Two creations never have the same page. */
  ghost predicate Apart(s: State, c: nat, d: nat)
    requires c < |s.creations| && d < |s.creations|
  {
    PageOf(s.creations[c].phase).Some? && PageOf(s.creations[c].phase) == PageOf(s.creations[d].phase) ==> c == d
  }

  /** A creation whose page is in a group object was attached to that object. */
  ghost predicate OwnerOk(s: State, g: nat, tab: string, c: nat)
    requires g < |s.boxes| && tab in s.boxes[g] && c < |s.creations|
  {
    PageOf(s.creations[c].phase) == Some(s.boxes[g][tab]) ==>
      InGroup(s.creations[c].phase) && s.creations[c].phase.group == g
  }

  ghost predicate CreationOk(s: State, c: nat) {
    Known(s, c) && LeaseOk(s, c) && SlotOk(s, c) && PlaceOk(s, c)
  }

  ghost predicate SessionOk(s: State, i: nat)
    requires i < |s.sessions|
  {
    && (forall p :: p in s.sessions[i].context ==> p < s.pages)
    && (forall d :: d in s.sessions[i].leases ==> d < |s.creations| && s.creations[d].session == i)
    && (forall key :: key in s.sessions[i].groups ==> s.sessions[i].groups[key] < |s.boxes|)
    && (forall key, other :: key in s.sessions[i].groups && other in s.sessions[i].groups && key != other ==>
          s.sessions[i].groups[key] != s.sessions[i].groups[other])
  }

  ghost predicate RemovalOk(s: State, r: Removal) {
    r.session < |s.sessions| && r.group < |s.boxes|
  }

  ghost predicate BoxOk(s: State, g: nat)
    requires g < |s.boxes|
  {
    forall tab :: tab in s.boxes[g] ==>
      s.boxes[g][tab] < s.pages && forall c :: 0 <= c < |s.creations| ==> OwnerOk(s, g, tab, c)
  }

  ghost predicate Inv(s: State) {
    && (forall c :: 0 <= c < |s.creations| ==> CreationOk(s, c))
    && (forall c, d :: 0 <= c < |s.creations| && 0 <= d < |s.creations| ==> Apart(s, c, d))
    && (forall i :: 0 <= i < |s.sessions| ==> SessionOk(s, i))
    && (forall g :: 0 <= g < |s.boxes| ==> BoxOk(s, g))
    && (forall d :: 0 <= d < |s.removals| ==> RemovalOk(s, s.removals[d]))
  }

  // ----- the components of the next state

  lemma BoxCount(s: State, step: Step)
    requires Enabled(s, step)
    ensures |s.boxes| <= |Apply(s, step).boxes| && Apply(s, step).removed == s.removed + Removes(s, step)
  {
    hide Creates, BoxAfter, Removes, Reaps, LeasesAfter, PhaseAfter, ContextAfter, GroupsAfter, ClosesAsEmpty, Target;
  }

  lemma BoxesAre(s: State, step: Step, g: nat)
    requires Enabled(s, step) && g < |Apply(s, step).boxes|
    ensures Apply(s, step).boxes[g] == BoxAfter(s, step, g)
    ensures Apply(s, step).removed == s.removed + Removes(s, step)
    ensures |s.boxes| <= |Apply(s, step).boxes|
  {
    hide Creates, BoxAfter, Removes, Reaps, LeasesAfter, PhaseAfter, ContextAfter, GroupsAfter, ClosesAsEmpty, Target;
  }

  lemma ContextsGrow(s: State, step: Step)
    requires Enabled(s, step)
    ensures
      var t := Apply(s, step);
      && |s.sessions| <= |t.sessions| && t.pages == s.pages + (if Lists(s, step).Some? then 1 else 0)
      && (forall i :: |s.sessions| <= i < |t.sessions| ==> t.sessions[i] == FRESH_SESSION)
      && forall i :: 0 <= i < |s.sessions| ==>
           t.sessions[i].context <= s.sessions[i].context + if Lists(s, step) == Some(i) then {s.pages} else {}
  {
    hide BoxAfter, Creates, Removes, Orphans, LeasesAfter, PhaseAfter, GroupsAfter, ClosesAsEmpty, Target, GroupUnder;
  }

  lemma CreationCount(s: State, step: Step)
    requires Enabled(s, step)
    ensures |Apply(s, step).creations| == |s.creations| + |NewCreations(s, step)| <= |s.creations| + 1
  {
    hide BoxAfter, Removes, Reaps, LeasesAfter, ContextAfter, GroupsAfter, ClosesAsEmpty, PhaseAfter;
  }

  /** A creation keeps its session, and its page once it has one. */
  lemma CreationsPersist(s: State, step: Step, c: nat)
    requires Enabled(s, step) && c < |s.creations|
    ensures c < |Apply(s, step).creations|
    ensures Apply(s, step).creations[c] == s.creations[c].(phase := PhaseAfter(s, step, c))
    ensures PageOf(PhaseAfter(s, step, c)) ==
      if step == Open(c) then Some(s.pages)
      else if step == Fail(c) || step == Abort(c) then None
      else PageOf(s.creations[c].phase)
    ensures InGroup(s.creations[c].phase) ==>
      InGroup(PhaseAfter(s, step, c)) && PhaseAfter(s, step, c).group == s.creations[c].phase.group
  {
    hide BoxAfter, Removes, Reaps, LeasesAfter, ContextAfter, GroupsAfter, ClosesAsEmpty;
  }

  lemma NewCreationIs(s: State, step: Step, c: nat)
    requires Enabled(s, step) && |s.creations| <= c < |Apply(s, step).creations|
    ensures c == |s.creations| && NewCreations(s, step) == [Apply(s, step).creations[c]]
  {
    hide BoxAfter, Removes, Reaps, LeasesAfter, ContextAfter, GroupsAfter, ClosesAsEmpty, PhaseAfter;
  }

  lemma GroupsAre(s: State, step: Step, i: nat)
    requires Enabled(s, step) && i < |s.sessions|
    ensures i < |Apply(s, step).sessions| && Apply(s, step).sessions[i].groups == GroupsAfter(s, step, i)
    ensures |Apply(s, step).boxes| == |s.boxes| + if Creates(s, step) then 1 else 0
  {
    hide BoxAfter, Creates, Removes, Reaps, LeasesAfter, PhaseAfter, ContextAfter, GroupsAfter, ClosesAsEmpty, Target;
  }

  lemma LeasesAre(s: State, step: Step, i: nat)
    requires Enabled(s, step) && i < |s.sessions|
    ensures i < |Apply(s, step).sessions| && Apply(s, step).sessions[i].leases == LeasesAfter(s, step, i)
    ensures |Apply(s, step).creations| == |s.creations| + |NewCreations(s, step)|
  {
    hide BoxAfter, Creates, Removes, Reaps, LeasesAfter, PhaseAfter, ContextAfter, GroupsAfter, ClosesAsEmpty, Target;
  }

  /** A step looks up, or creates, a group object that exists afterwards. */
  lemma LookUpInRange(s: State, step: Step)
    requires Enabled(s, step) && LooksUp(s, step).Some? && SessionOk(s, LooksUp(s, step).value.0)
    ensures GroupUnder(s, LooksUp(s, step).value.0, LooksUp(s, step).value.1) < |Apply(s, step).boxes|
  {
    hide BoxAfter, Removes, Reaps, ContextAfter, GroupsAfter, ClosesAsEmpty;
  }

  /** What is in a group object stays there or is recorded as removed. */
  lemma SlotPersists(s: State, step: Step, g: nat, tab: string)
    requires Enabled(s, step) && g < |s.boxes| && tab in s.boxes[g]
    ensures g < |Apply(s, step).boxes| && s.removed <= Apply(s, step).removed
    ensures s.boxes[g][tab] in Apply(s, step).removed
      || (tab in Apply(s, step).boxes[g] && Apply(s, step).boxes[g][tab] == s.boxes[g][tab])
  {
    BoxesAre(s, step, g);
    hide Apply;
  }

  /** The page a step puts into a group object is there afterwards. */
  lemma PutIsThere(s: State, step: Step)
    requires Enabled(s, step) && Puts(s, step).Some? && Puts(s, step).value.0 < |Apply(s, step).boxes|
    ensures
      var (g, tab, page) := Puts(s, step).value;
      tab in Apply(s, step).boxes[g] && Apply(s, step).boxes[g][tab] == page
  {
    BoxesAre(s, step, Puts(s, step).value.0);
    hide Apply, Puts;
  }

  /** A page in a group object was there before, or the step puts it there. */
  lemma SlotComesFrom(s: State, step: Step, g: nat, tab: string)
    requires Enabled(s, step) && g < |Apply(s, step).boxes| && tab in Apply(s, step).boxes[g]
    ensures
      || (g < |s.boxes| && tab in s.boxes[g] && s.boxes[g][tab] == Apply(s, step).boxes[g][tab])
      || Puts(s, step) == Some((g, tab, Apply(s, step).boxes[g][tab]))
  {
    BoxesAre(s, step, g);
    hide Apply, Puts, Takes;
  }

  // ----- the proof, one kind of fact at a time

  lemma LeaseKept(s: State, step: Step, c: nat)
    requires Enabled(s, step) && c < |Apply(s, step).creations|
    requires c < |s.creations| ==> Known(s, c) && LeaseOk(s, c)
    requires step.Popup? ==> SessionOk(s, step.session)
    ensures Known(Apply(s, step), c) && LeaseOk(Apply(s, step), c)
  {
    hide Apply, Target, GroupUnder;
    if c < |s.creations| {
      CreationsPersist(s, step, c);
      LeasesAre(s, step, s.creations[c].session);
    } else {
      NewCreationIs(s, step, c);
      LeasesAre(s, step, step.session);
    }
  }

  lemma LeasesKept(s: State, step: Step, i: nat, d: nat)
    requires Enabled(s, step) && i < |s.sessions| && SessionOk(s, i) && d in LeasesAfter(s, step, i)
    ensures d < |Apply(s, step).creations| && Apply(s, step).creations[d].session == i
  {
    LeasesAre(s, step, i);
    if d < |s.creations| {
      CreationsPersist(s, step, d);
    } else {
      NewCreationIs(s, step, d);
    }
    hide Apply, PhaseAfter;
  }

  lemma SlotKept(s: State, step: Step, c: nat)
    requires Enabled(s, step) && c < |Apply(s, step).creations|
    requires c < |s.creations| ==> SlotOk(s, c)
    requires LooksUp(s, step).Some? ==> SessionOk(s, LooksUp(s, step).value.0)
    ensures SlotOk(Apply(s, step), c)
  {
    BoxCount(s, step);
    if LooksUp(s, step).Some? {
      LookUpInRange(s, step);
    }
    if c < |s.creations| {
      CreationsPersist(s, step, c);
      var k := s.creations[c];
      if step == Attach(c) {
        PutIsThere(s, step);
      } else if InGroup(k.phase) && k.phase.page !in s.removed {
        SlotPersists(s, step, k.phase.group, k.tab);
      }
      hide Apply, SessionOk;
    } else {
      NewCreationIs(s, step, c);
      if step.Popup? {
        PutIsThere(s, step);
      }
      hide Apply, SessionOk;
    }
  }

  lemma PlaceKept(s: State, step: Step, c: nat)
    requires Inv(s) && Enabled(s, step) && c < |Apply(s, step).creations|
    ensures PlaceOk(Apply(s, step), c)
  {
    hide Apply, PhaseAfter;
    var t := Apply(s, step);
    ContextsGrow(s, step);
    if c < |s.creations| {
      CreationsPersist(s, step, c);
      assert PlaceOk(s, c) by { assert CreationOk(s, c); }
    } else {
      NewCreationIs(s, step, c);
    }
    var q := PageOf(t.creations[c].phase);
    if q.Some? {
      assert q.value < t.pages;
      forall i | 0 <= i < |t.sessions| && i != t.creations[c].session ensures q.value !in t.sessions[i].context {
        if i < |s.sessions| {
          assert SessionOk(s, i);
        }
      }
    }
  }

  lemma ApartKept(s: State, step: Step, c: nat, d: nat)
    requires Inv(s) && Enabled(s, step) && c < |Apply(s, step).creations| && d < |s.creations| && c != d
    ensures Apart(Apply(s, step), c, d) && Apart(Apply(s, step), d, c)
  {
    CreationsPersist(s, step, d);
    assert CreationOk(s, d);
    if c < |s.creations| {
      assert CreationOk(s, c) && Apart(s, c, d);
      CreationsPersist(s, step, c);
    } else {
      NewCreationIs(s, step, c);
    }
    hide Apply, PhaseAfter, Inv;
  }

  lemma SessionKept(s: State, step: Step, i: nat)
    requires Enabled(s, step) && i < |s.sessions| && SessionOk(s, i)
    ensures i < |Apply(s, step).sessions| && SessionOk(Apply(s, step), i)
  {
    var t := Apply(s, step);
    ContextsGrow(s, step);
    GroupsAre(s, step, i);
    LeasesAre(s, step, i);
    forall d | d in t.sessions[i].leases ensures d < |t.creations| && t.creations[d].session == i {
      LeasesKept(s, step, i, d);
    }
    hide Apply, LeasesAfter, LooksUp, Drops;
  }

  lemma BoxPageKept(s: State, step: Step, g: nat, tab: string)
    requires Inv(s) && Enabled(s, step) && g < |Apply(s, step).boxes| && tab in Apply(s, step).boxes[g]
    ensures Apply(s, step).boxes[g][tab] < Apply(s, step).pages
  {
    SlotComesFrom(s, step, g, tab);
    ContextsGrow(s, step);
    assert g < |s.boxes| ==> BoxOk(s, g);
    if step.Attach? {
      assert CreationOk(s, step.creation);
    }
    hide Apply, Inv;
  }

  /** Only the creation that moves has the page that is put. */
  lemma OwnerOfPut(s: State, step: Step, c: nat)
    requires Inv(s) && Enabled(s, step) && Puts(s, step).Some? && c < |s.creations|
    requires PageOf(PhaseAfter(s, step, c)) == Some(Puts(s, step).value.2)
    ensures PhaseAfter(s, step, c) == Attached(Puts(s, step).value.2, Puts(s, step).value.0)
  {
    assert PlaceOk(s, c) by { assert CreationOk(s, c); }
    if step.Attach? {
      assert Apart(s, c, step.creation);
    }
    hide Inv, Target, GroupUnder;
  }

  lemma OwnerKept(s: State, step: Step, g: nat, tab: string, c: nat)
    requires Inv(s) && Enabled(s, step) && g < |Apply(s, step).boxes| && tab in Apply(s, step).boxes[g]
    requires c < |Apply(s, step).creations|
    ensures OwnerOk(Apply(s, step), g, tab, c)
  {
    hide Apply, PhaseAfter, Target, GroupUnder;
    var page := Apply(s, step).boxes[g][tab];
    SlotComesFrom(s, step, g, tab);
    if c < |s.creations| {
      CreationsPersist(s, step, c);
      if PageOf(PhaseAfter(s, step, c)) == Some(page) {
        if Puts(s, step) == Some((g, tab, page)) {
          OwnerOfPut(s, step, c);
        } else {
          assert OwnerOk(s, g, tab, c) && page < s.pages by { assert BoxOk(s, g); }
        }
      }
    } else {
      NewCreationIs(s, step, c);
      assert g < |s.boxes| ==> BoxOk(s, g);
    }
  }

  lemma RemovalKept(s: State, step: Step, d: nat)
    requires Inv(s) && Enabled(s, step) && d < |Apply(s, step).removals|
    ensures RemovalOk(Apply(s, step), Apply(s, step).removals[d])
  {
    if d < |s.removals| {
      assert RemovalOk(s, s.removals[d]);
    }
    hide Inv, BoxAfter, Removes, Reaps, LeasesAfter, PhaseAfter, ContextAfter, GroupsAfter, ClosesAsEmpty, Creates;
  }

  lemma StepKeeps(s: State, step: Step)
    requires Inv(s) && Enabled(s, step)
    ensures Inv(Apply(s, step))
  {
    var t := Apply(s, step);
    ContextsGrow(s, step);
    CreationCount(s, step);
    forall c | 0 <= c < |t.creations| ensures CreationOk(t, c) {
      assert c < |s.creations| ==> CreationOk(s, c);
      LeaseKept(s, step, c);
      SlotKept(s, step, c);
      PlaceKept(s, step, c);
    }
    forall c, d | 0 <= c < |t.creations| && 0 <= d < |t.creations| ensures Apart(t, c, d) {
      if d < |s.creations| && c != d {
        ApartKept(s, step, c, d);
      } else if c < |s.creations| && c != d {
        ApartKept(s, step, d, c);
      }
    }
    forall i | 0 <= i < |t.sessions| ensures SessionOk(t, i) {
      if i < |s.sessions| {
        SessionKept(s, step, i);
      }
    }
    forall g | 0 <= g < |t.boxes| ensures BoxOk(t, g) {
      forall tab | tab in t.boxes[g]
        ensures t.boxes[g][tab] < t.pages && forall c :: 0 <= c < |t.creations| ==> OwnerOk(t, g, tab, c)
      {
        BoxPageKept(s, step, g, tab);
        forall c | 0 <= c < |t.creations| ensures OwnerOk(t, g, tab, c) {
          OwnerKept(s, step, g, tab, c);
        }
      }
    }
    forall d | 0 <= d < |t.removals| ensures RemovalOk(t, t.removals[d]) {
      RemovalKept(s, step, d);
    }
  }

  // ----- what each step does, in one place

  /** Steps of one creation: its phase, its lease and its page. */
  ghost predicate WorkDone(s: State, step: Step, t: State)
    requires Enabled(s, step) && (exists c :: Moves(step, c)) && s.creations[step.creation].session < |t.sessions|
    requires step.creation < |t.creations|
  {
    var c, k := step.creation, s.creations[step.creation];
    var x, x', phase := s.sessions[k.session], t.sessions[k.session], t.creations[step.creation].phase;
    match step
    case Open(_) => phase == Opened(s.pages) && x'.context == x.context + {s.pages} && t.pages == s.pages + 1 && x'.leases == x.leases
    case Fail(_) => phase == Failed && x'.leases == x.leases - {c}
    case Hold(_) => phase == Leased(k.phase.page) && (c in x.leases ==> x'.leases == x.leases[c := Some(k.phase.page)])
    case Attach(_) =>
      && phase.Attached? && phase.page == k.phase.page && x'.leases == x.leases
      && (phase.group < |t.boxes| ==> k.tab in t.boxes[phase.group] && t.boxes[phase.group][k.tab] == k.phase.page)
      && (if k.early.Some? then phase.group == k.early.value && x'.groups == x.groups
          else k.key in x'.groups && x'.groups[k.key] == phase.group)
    case Release(_) => phase == Done(k.phase.page, k.phase.group) && x'.leases == x.leases - {c}
    case Abort(_) => phase == Failed && x'.leases == x.leases - {c} && k.phase.page in t.removed
    case _ => true
  }

  lemma WorkIsDone(s: State, step: Step)
    requires Inv(s) && Enabled(s, step) && exists c :: Moves(step, c)
    ensures s.creations[step.creation].session < |Apply(s, step).sessions| && step.creation < |Apply(s, step).creations|
    ensures WorkDone(s, step, Apply(s, step))
  {
    hide Apply, Inv;
    var c := step.creation;
    var i := s.creations[c].session;
    CreationsPersist(s, step, c);
    LeasesAre(s, step, i);
    GroupsAre(s, step, i);
    BoxCount(s, step);
    ContextIs(s, step, i);
    if step.Attach? {
      assert SessionOk(s, i) by { InvGives(s, c); }
      if Target(s, s.creations[c]) < |Apply(s, step).boxes| {
        PutIsThere(s, step);
      }
      if s.creations[c].early.None? {
        LookedUpIsRegistered(s, step);
      }
    }
  }

  lemma ContextIs(s: State, step: Step, i: nat)
    requires Enabled(s, step) && i < |s.sessions|
    ensures i < |Apply(s, step).sessions| && Apply(s, step).sessions[i].context == ContextAfter(s, step, i)
    ensures Apply(s, step).pages == s.pages + if Lists(s, step).Some? then 1 else 0
  {
    hide BoxAfter, Creates, Removes, Reaps, LeasesAfter, PhaseAfter, ContextAfter, GroupsAfter, ClosesAsEmpty, Target;
  }

  lemma LookedUpIsRegistered(s: State, step: Step)
    requires Enabled(s, step) && LooksUp(s, step).Some?
    ensures
      var (i, key) := LooksUp(s, step).value;
      && i < |Apply(s, step).sessions| && key in Apply(s, step).sessions[i].groups
      && Apply(s, step).sessions[i].groups[key] == GroupUnder(s, i, key)
  {
    var (i, key) := LooksUp(s, step).value;
    GroupsAre(s, step, i);
    assert Drops(s, step).None?;
    hide Apply, LooksUp;
  }

  /** Steps that fill and empty groups. */
  ghost predicate GroupsDone(s: State, step: Step, t: State)
    requires Enabled(s, step) && |s.sessions| <= |t.sessions| && |s.boxes| <= |t.boxes| && |s.removals| <= |t.removals|
  {
    match step
    case Begin(i, key, tab, early) =>
      && |t.creations| == |s.creations| + 1
      && var k := t.creations[|s.creations|];
         && k.session == i && k.key == key && k.tab == tab && k.phase == Opening
         && |s.creations| in t.sessions[i].leases && t.sessions[i].leases[|s.creations|] == None
         && (if early then key in t.sessions[i].groups && k.early == Some(t.sessions[i].groups[key]) else k.early == None)
    case Popup(i, key, tab) =>
      && |t.creations| == |s.creations| + 1 && key in t.sessions[i].groups
      && var g := t.sessions[i].groups[key];
         && t.creations[|s.creations|] == Creation(i, key, tab, None, Done(s.pages, g)) && s.pages in t.sessions[i].context
         && (g < |t.boxes| ==> tab in t.boxes[g] && t.boxes[g][tab] == s.pages)
    case RemoveTab(g, tab) => t.boxes[g] == s.boxes[g] - {tab} && s.boxes[g][tab] in t.removed
    case StartRemoval(i, key, which) => t.removals == s.removals + [Removal(i, key, s.sessions[i].groups[key], which, true)]
    case EndRemoval(d) =>
      var r := s.removals[d];
      && !t.removals[d].pending
      && (r.group < |s.boxes| ==>
            if r.tab.Some? then
              && t.boxes[r.group] == s.boxes[r.group] - {r.tab.value}
              && t.sessions[r.session].groups ==
                   if t.boxes[r.group] == map[] then s.sessions[r.session].groups - {r.key} else s.sessions[r.session].groups
            else
              && t.sessions[r.session].groups == s.sessions[r.session].groups - {r.key}
              && forall tab :: tab in s.boxes[r.group] ==> s.boxes[r.group][tab] in t.removed)
    case DropEmptyGroup(i, key) => t.sessions[i].groups == s.sessions[i].groups - {key}
    case _ => true
  }

  lemma GroupsAreDone(s: State, step: Step)
    requires Inv(s) && Enabled(s, step)
    ensures |s.sessions| <= |Apply(s, step).sessions| && |s.boxes| <= |Apply(s, step).boxes|
    ensures |s.removals| <= |Apply(s, step).removals|
    ensures GroupsDone(s, step, Apply(s, step))
  {
    hide Inv;
    ContextsGrow(s, step);
    BoxCount(s, step);
    RemovalsAre(s, step);
    hide Apply;
    match step
    case Begin(i, key, tab, early) =>
      CreationCount(s, step);
      NewCreationIs(s, step, |s.creations|);
      LeasesAre(s, step, i);
      if early {
        LookedUpIsRegistered(s, step);
      }
    case Popup(i, key, tab) =>
      CreationCount(s, step);
      NewCreationIs(s, step, |s.creations|);
      ContextIs(s, step, i);
      LookedUpIsRegistered(s, step);
      if GroupUnder(s, i, key) < |Apply(s, step).boxes| {
        PutIsThere(s, step);
      }
    case RemoveTab(g, tab) => BoxesAre(s, step, g);
    case EndRemoval(d) =>
      GroupsAre(s, step, s.removals[d].session);
      if s.removals[d].group < |s.boxes| {
        BoxesAre(s, step, s.removals[d].group);
      }
    case DropEmptyGroup(i, key) => GroupsAre(s, step, i);
    case _ =>
  }

  lemma RemovalsAre(s: State, step: Step)
    requires Enabled(s, step)
    ensures Apply(s, step).removals ==
      match step
      case StartRemoval(i, key, which) => s.removals + [Removal(i, key, s.sessions[i].groups[key], which, true)]
      case EndRemoval(d) => s.removals[d := s.removals[d].(pending := false)]
      case _ => s.removals
  {
    hide BoxAfter, Creates, Removes, Reaps, LeasesAfter, PhaseAfter, ContextAfter, GroupsAfter, ClosesAsEmpty;
  }

  /** Steps of the reapers and of sessions as a whole. */
  ghost predicate HouseDone(s: State, step: Step, t: State)
    requires Enabled(s, step) && |s.sessions| <= |t.sessions|
  {
    match step
    case NewSession => t.sessions == s.sessions + [FRESH_SESSION] && t.live == s.live + {|s.sessions|}
    case Stray(i) => t.sessions[i].context == s.sessions[i].context + {s.pages} && t.pages == s.pages + 1
    case CloseIfEmpty(i) =>
      if s.sessions[i].groups == map[] && s.sessions[i].leases == map[] then t.sessions[i].closing && i in t.emptied
      else t.sessions[i].closing == s.sessions[i].closing && (i in t.emptied <==> i in s.emptied)
    case Close(i) => t.sessions[i].closing && t.emptied == s.emptied
    case EndContext(i) => t.sessions[i].context == {}
    case Forget(i) => t.live == s.live - {i}
    case OrphanTick(i) =>
      forall p :: p in s.sessions[i].context ==>
        var closed := i in s.live && !s.sessions[i].closing
          && !IsRegistered(s, s.sessions[i], p) && !Leases.Protects(s.sessions[i].leases, p);
        (closed ==> p in t.reaped && p !in t.sessions[i].context) && (!closed ==> p in t.sessions[i].context)
    case _ => true
  }

  lemma HouseIsDone(s: State, step: Step)
    requires Enabled(s, step)
    ensures |s.sessions| <= |Apply(s, step).sessions| && HouseDone(s, step, Apply(s, step))
  {
    ContextsGrow(s, step);
    RemovedGrows(s, step);
    match step
    case NewSession => assert Apply(s, step).sessions == s.sessions + [FRESH_SESSION];
    case Stray(i) => ContextIs(s, step, i);
    case CloseIfEmpty(i) => EmptiedGrows(s, step, i);
    case EndContext(i) => ContextIs(s, step, i);
    case OrphanTick(i) => ContextIs(s, step, i);
    case _ =>
  }

  // ----- losing a page

  /** The group object is registered in the session. */
  predicate InUse(s: State, i: nat, g: nat)
    requires i < |s.sessions|
  {
    exists key :: key in s.sessions[i].groups && s.sessions[i].groups[key] == g
  }

  predicate TabRemoved(s: State, c: nat) {
    c < |s.creations| && InGroup(s.creations[c].phase) && s.creations[c].phase.page in s.removed
  }

  /** The tab was not removed, yet its page is in a group object that nothing registers any more. */
  predicate Lost(s: State, c: nat) {
    && Known(s, c) && InGroup(s.creations[c].phase) && !TabRemoved(s, c)
    && !InUse(s, s.creations[c].session, s.creations[c].phase.group)
  }

  /**
   The two ways to lose a page: it is put into a group that was looked up early and has been
   dropped since, or a removal holding another group drops the key its group is registered under.
   */
  predicate Loses(s: State, step: Step, c: nat) {
    && Known(s, c)
    && var k := s.creations[c];
       match step
       case Attach(d) =>
         && d == c && k.phase.Leased? && k.phase.page !in s.removed
         && k.early.Some? && !InUse(s, k.session, k.early.value)
       case EndRemoval(d) =>
         && InGroup(k.phase) && k.phase.page !in s.removed
         && d < |s.removals| && Empties(s, s.removals[d]) && s.removals[d].session == k.session
         && s.removals[d].group != k.phase.group
         && var groups := s.sessions[k.session].groups;
            s.removals[d].key in groups && groups[s.removals[d].key] == k.phase.group
       case _ => false
  }

  /** A registered group object stays registered unless its own key is dropped; a dropped one never comes back. */
  lemma InUseAfter(s: State, step: Step, i: nat, g: nat)
    requires Enabled(s, step) && i < |s.sessions| && SessionOk(s, i) && g < |s.boxes|
    ensures i < |Apply(s, step).sessions|
    ensures InUse(Apply(s, step), i, g) <==>
      && InUse(s, i, g)
      && !exists key :: Drops(s, step) == Some((i, key)) && key in s.sessions[i].groups && s.sessions[i].groups[key] == g
  {
    GroupsAre(s, step, i);
    hide Apply, LooksUp, Drops;
    var t := Apply(s, step);
    if InUse(s, i, g) {
      var key :| key in s.sessions[i].groups && s.sessions[i].groups[key] == g;
      if Drops(s, step) != Some((i, key)) {
        assert key in t.sessions[i].groups && t.sessions[i].groups[key] == g;
      }
    }
  }

  /** The group a late creation or a pop-up puts its page into is registered. */
  lemma LookedUpIsInUse(s: State, step: Step)
    requires Enabled(s, step) && LooksUp(s, step).Some?
    ensures
      var (i, key) := LooksUp(s, step).value;
      i < |Apply(s, step).sessions| && InUse(Apply(s, step), i, GroupUnder(s, i, key))
  {
    var (i, key) := LooksUp(s, step).value;
    GroupsAre(s, step, i);
    assert Drops(s, step).None?;
    hide Apply, LooksUp;
    assert key in Apply(s, step).sessions[i].groups;
  }

  lemma OwnerIs(s: State, g: nat, tab: string, c: nat)
    requires Inv(s) && g < |s.boxes| && tab in s.boxes[g] && c < |s.creations|
    ensures OwnerOk(s, g, tab, c)
  {
    assert BoxOk(s, g);
  }

  /** A removal does not touch pages of other group objects. */
  lemma RemovesOnlyOwn(s: State, step: Step, c: nat)
    requires Inv(s) && Enabled(s, step) && c < |s.creations| && PageOf(s.creations[c].phase).Some?
    requires PageOf(s.creations[c].phase).value in Removes(s, step) && !step.Abort?
    ensures InGroup(s.creations[c].phase)
    ensures step.EndRemoval? ==> s.removals[step.removal].group == s.creations[c].phase.group
  {
    hide Inv;
    var p := PageOf(s.creations[c].phase).value;
    if step.EndRemoval? {
      var r := s.removals[step.removal];
      var tab :| tab in s.boxes[r.group] && s.boxes[r.group][tab] == p;
      OwnerIs(s, r.group, tab, c);
    } else if step.RemoveTab? {
      OwnerIs(s, step.group, step.tab, c);
    } else {
      OwnerIs(s, Puts(s, step).value.0, Puts(s, step).value.1, c);
    }
  }

  /** A tab in its group object is removed by a step that empties that object. */
  lemma EmptyingRemoves(s: State, d: nat, c: nat)
    requires Enabled(s, EndRemoval(d)) && Empties(s, s.removals[d])
    requires c < |s.creations| && SlotOk(s, c) && InGroup(s.creations[c].phase) && s.creations[c].phase.page !in s.removed
    requires s.removals[d].group == s.creations[c].phase.group
    ensures s.creations[c].phase.page in Removes(s, EndRemoval(d))
  {
    var k, r := s.creations[c], s.removals[d];
    var box, tab := s.boxes[r.group], if r.tab.Some? then r.tab.value else k.tab;
    var rest := box - {tab};
    assert k.tab == tab || k.tab in rest;
  }

  /** One step loses a page exactly when its guard says so. */
  lemma LossStep(s: State, step: Step, c: nat)
    requires Inv(s) && Enabled(s, step) && !Lost(s, c)
    ensures Lost(Apply(s, step), c) <==> Loses(s, step, c)
  {
    hide Apply, Inv;
    if c < |s.creations| {
      CreationsPersist(s, step, c);
      if InGroup(s.creations[c].phase) {
        LossOfRegistered(s, step, c);
      } else if step == Attach(c) {
        LossOfAttached(s, c);
      }
    } else if c < |Apply(s, step).creations| {
      NewCreationIs(s, step, c);
      if step.Popup? {
        LookedUpIsInUse(s, step);
      }
    }
  }

  lemma LossOfAttached(s: State, c: nat)
    requires Inv(s) && Enabled(s, Attach(c))
    ensures Lost(Apply(s, Attach(c)), c) <==> Loses(s, Attach(c), c)
  {
    hide Apply, Inv;
    var step, k := Attach(c), s.creations[c];
    assert CreationOk(s, c) && SessionOk(s, k.session) by { InvGives(s, c); }
    CreationsPersist(s, step, c);
    BoxCount(s, step);
    if k.phase.page in Removes(s, step) {
      RemovesOnlyOwn(s, step, c);
    }
    if k.early.Some? {
      InUseAfter(s, step, k.session, k.early.value);
    } else {
      LookedUpIsInUse(s, step);
    }
    assert Known(Apply(s, step), c) by { StepKeeps(s, step); InvGives(Apply(s, step), c); }
  }

  lemma InvGives(s: State, c: nat)
    requires Inv(s) && c < |s.creations|
    ensures CreationOk(s, c) && SessionOk(s, s.creations[c].session)
  {
  }

  lemma LossOfRegistered(s: State, step: Step, c: nat)
    requires Inv(s) && Enabled(s, step) && c < |s.creations| && InGroup(s.creations[c].phase) && !Lost(s, c)
    ensures Lost(Apply(s, step), c) <==> Loses(s, step, c)
  {
    hide Apply, Inv;
    var k := s.creations[c];
    InvGives(s, c);
    CreationsPersist(s, step, c);
    BoxCount(s, step);
    assert Known(Apply(s, step), c) by { StepKeeps(s, step); InvGives(Apply(s, step), c); }
    InUseAfter(s, step, k.session, k.phase.group);
    if k.phase.page !in s.removed && step.EndRemoval? {
      if s.removals[step.removal].group == k.phase.group {
        if Empties(s, s.removals[step.removal]) {
          EmptyingRemoves(s, step.removal, c);
        }
      } else if k.phase.page in Removes(s, step) {
        RemovesOnlyOwn(s, step, c);
      }
    }
  }

  /** What is lost stays lost until its tab is removed, and what is removed stays removed. */
  lemma LostStays(s: State, step: Step, c: nat)
    requires Inv(s) && Enabled(s, step) && (Lost(s, c) || TabRemoved(s, c))
    ensures Lost(Apply(s, step), c) || TabRemoved(Apply(s, step), c)
    ensures TabRemoved(s, c) ==> TabRemoved(Apply(s, step), c)
  {
    hide Apply, Inv;
    var k := s.creations[c];
    InvGives(s, c);
    CreationsPersist(s, step, c);
    BoxCount(s, step);
    assert Known(Apply(s, step), c) by { StepKeeps(s, step); InvGives(Apply(s, step), c); }
    InUseAfter(s, step, k.session, k.phase.group);
  }

  // ----- runs

  ghost predicate Executable(s: State, run: seq<Step>)
    decreases |run|
  {
    run == [] || (Enabled(s, run[0]) && Executable(Apply(s, run[0]), run[1..]))
  }

  ghost function After(s: State, run: seq<Step>): State
    requires Executable(s, run)
    decreases |run|
  {
    if run == [] then s else After(Apply(s, run[0]), run[1..])
  }

  lemma {:induction false} RunKeeps(s: State, run: seq<Step>)
    requires Inv(s) && Executable(s, run)
    ensures Inv(After(s, run))
    decreases |run|
  {
    hide Apply, Inv;
    if run != [] {
      StepKeeps(s, run[0]);
      RunKeeps(Apply(s, run[0]), run[1..]);
    }
  }

  ghost predicate SomeStepLoses(s: State, run: seq<Step>, c: nat)
    requires Executable(s, run)
    decreases |run|
  {
    run != [] && (Loses(s, run[0], c) || SomeStepLoses(Apply(s, run[0]), run[1..], c))
  }

  lemma {:induction false} LostForGood(s: State, run: seq<Step>, c: nat)
    requires Inv(s) && Executable(s, run) && (Lost(s, c) || TabRemoved(s, c))
    ensures Lost(After(s, run), c) || TabRemoved(After(s, run), c)
    ensures TabRemoved(s, c) ==> TabRemoved(After(s, run), c)
    decreases |run|
  {
    hide Apply, Inv, Lost, TabRemoved;
    if run != [] {
      StepKeeps(s, run[0]);
      LostStays(s, run[0], c);
      LostForGood(Apply(s, run[0]), run[1..], c);
    }
  }

  /** Over every run a page is lost at the end exactly when some step lost it and its tab was not removed since. */
  lemma {:induction false} LostExactly(s: State, run: seq<Step>, c: nat)
    requires Inv(s) && Executable(s, run) && !Lost(s, c)
    ensures Lost(After(s, run), c) <==> SomeStepLoses(s, run, c) && !TabRemoved(After(s, run), c)
    decreases |run|
  {
    hide Apply, Inv, Loses;
    if run != [] {
      StepKeeps(s, run[0]);
      LossStep(s, run[0], c);
      if Loses(s, run[0], c) {
        LostForGood(Apply(s, run[0]), run[1..], c);
      } else {
        LostExactly(Apply(s, run[0]), run[1..], c);
      }
    }
  }

  /** In particular in every state the server can reach, for every creation. */
  lemma RegisteredExactly(run: seq<Step>, c: nat)
    requires Executable(EMPTY, run) && c < |After(EMPTY, run).creations|
    requires InGroup(After(EMPTY, run).creations[c].phase) && !TabRemoved(After(EMPTY, run), c)
    ensures
      var s := After(EMPTY, run);
      && s.creations[c].session < |s.sessions|
      && (IsRegistered(s, s.sessions[s.creations[c].session], s.creations[c].phase.page) <==>
            !SomeStepLoses(EMPTY, run, c))
  {
    var s := After(EMPTY, run);
    RunKeeps(EMPTY, run);
    LostExactly(EMPTY, run, c);
    hide Apply, Inv;
    InvGives(s, c);
    RegisteredIsInUse(s, c);
  }

  lemma RegisteredIsInUse(s: State, c: nat)
    requires Inv(s) && c < |s.creations| && InGroup(s.creations[c].phase) && s.creations[c].phase.page !in s.removed
    ensures Known(s, c)
    ensures
      var k := s.creations[c];
      IsRegistered(s, s.sessions[k.session], k.phase.page) <==> InUse(s, k.session, k.phase.group)
  {
    hide Inv;
    InvGives(s, c);
    var k := s.creations[c];
    var x, p, g := s.sessions[k.session], k.phase.page, k.phase.group;
    if IsRegistered(s, x, p) {
      var key :| key in x.groups && x.groups[key] < |s.boxes| && InBox(s.boxes[x.groups[key]], p);
      var tab :| tab in s.boxes[x.groups[key]] && s.boxes[x.groups[key]][tab] == p;
      OwnerIs(s, x.groups[key], tab, c);
    }
    if InUse(s, k.session, g) {
      var key :| key in x.groups && x.groups[key] == g;
      assert s.boxes[g][k.tab] == p;
      assert InBox(s.boxes[x.groups[key]], p);
    }
  }

  // ----- what the orphan reaper closes

  /** A page is protected by a lease exactly while its creation holds it. */
  lemma ProtectedIsHeld(s: State, c: nat)
    requires Inv(s) && c < |s.creations| && PageOf(s.creations[c].phase).Some?
    ensures Known(s, c)
    ensures
      var k := s.creations[c];
      Leases.Protects(s.sessions[k.session].leases, PageOf(k.phase).value) <==> k.phase.Leased? || k.phase.Attached?
  {
    InvGives(s, c);
    var k := s.creations[c];
    var leases, p := s.sessions[k.session].leases, PageOf(k.phase).value;
    if Leases.Protects(leases, p) {
      var d :| d in leases && leases[d] == Some(p);
      InvGives(s, d);
      assert Apart(s, c, d);
    }
    hide Inv;
  }

  /** Before the lease holds the page, or once the page is lost, nothing protects it. */
  predicate Exposed(s: State, c: nat) {
    c < |s.creations| && (s.creations[c].phase.Opened? || (s.creations[c].phase.Done? && Lost(s, c)))
  }

  /** A tick of the orphan reaper finds the page listed and exposed. */
  predicate TickHits(s: State, step: Step, c: nat) {
    && Known(s, c) && Exposed(s, c) && PageOf(s.creations[c].phase).Some?
    && var i := s.creations[c].session;
       step == OrphanTick(i) && i in s.live && !s.sessions[i].closing
       && PageOf(s.creations[c].phase).value in s.sessions[i].context
  }

  lemma OpenedIsNotRegistered(s: State, c: nat)
    requires Inv(s) && c < |s.creations| && PageOf(s.creations[c].phase).Some? && !InGroup(s.creations[c].phase)
    ensures Known(s, c)
    ensures !IsRegistered(s, s.sessions[s.creations[c].session], PageOf(s.creations[c].phase).value)
  {
    hide Inv;
    InvGives(s, c);
    var x, p := s.sessions[s.creations[c].session], PageOf(s.creations[c].phase).value;
    if IsRegistered(s, x, p) {
      var key :| key in x.groups && x.groups[key] < |s.boxes| && InBox(s.boxes[x.groups[key]], p);
      var tab :| tab in s.boxes[x.groups[key]] && s.boxes[x.groups[key]][tab] == p;
      OwnerIs(s, x.groups[key], tab, c);
    }
  }

  /**
   A page whose tab was not removed is closed by a step exactly when that is a tick on its
   own live session, the browser lists it, and either its lease does not hold it yet or it
   was handed over and lost.
   */
  lemma ReapsExactly(s: State, step: Step, c: nat)
    requires Inv(s) && Enabled(s, step) && c < |s.creations| && PageOf(s.creations[c].phase).Some?
    requires PageOf(s.creations[c].phase).value !in s.removed
    ensures PageOf(s.creations[c].phase).value in Reaps(s, step) <==> TickHits(s, step, c)
  {
    InvGives(s, c);
    ProtectedIsHeld(s, c);
    if InGroup(s.creations[c].phase) {
      RegisteredIsInUse(s, c);
    } else {
      OpenedIsNotRegistered(s, c);
    }
    hide Inv, IsRegistered, Leases.Protects, InUse;
  }

  ghost predicate SomeTickHits(s: State, run: seq<Step>, c: nat)
    requires Executable(s, run)
    decreases |run|
  {
    run != [] && (TickHits(s, run[0], c) || SomeTickHits(Apply(s, run[0]), run[1..], c))
  }

  lemma RemovedGrows(s: State, step: Step)
    requires Enabled(s, step)
    ensures s.removed <= Apply(s, step).removed
    ensures Apply(s, step).reaped == s.reaped + Reaps(s, step)
  {
    hide BoxAfter, Creates, Removes, Reaps, LeasesAfter, PhaseAfter, ContextAfter, GroupsAfter, ClosesAsEmpty;
  }

  lemma {:induction false} RemovedStays(s: State, run: seq<Step>)
    requires Executable(s, run)
    ensures s.removed <= After(s, run).removed && s.reaped <= After(s, run).reaped
    decreases |run|
  {
    hide Apply;
    if run != [] {
      RemovedGrows(s, run[0]);
      RemovedStays(Apply(s, run[0]), run[1..]);
    }
  }

  /** A page stays with its creation until it is removed. */
  lemma PageStays(s: State, step: Step, c: nat)
    requires Enabled(s, step) && c < |s.creations| && PageOf(s.creations[c].phase).Some?
    ensures c < |Apply(s, step).creations|
    ensures PageOf(s.creations[c].phase).value in Apply(s, step).removed
      || PageOf(Apply(s, step).creations[c].phase) == PageOf(s.creations[c].phase)
  {
    hide Apply, PhaseAfter;
    CreationsPersist(s, step, c);
    BoxCount(s, step);
  }

  /** Over every run a page is closed as an orphan, its tab not removed, exactly when some tick found it exposed. */
  lemma {:induction false} ReapedExactly(s: State, run: seq<Step>, c: nat, p: nat)
    requires Inv(s) && Executable(s, run) && c < |s.creations| && PageOf(s.creations[c].phase) == Some(p) && p !in s.reaped
    requires p !in After(s, run).removed
    ensures p in After(s, run).reaped <==> SomeTickHits(s, run, c)
    decreases |run|
  {
    hide Apply, Inv, TickHits;
    if run != [] {
      var t := Apply(s, run[0]);
      StepKeeps(s, run[0]);
      RemovedGrows(s, run[0]);
      RemovedStays(t, run[1..]);
      PageStays(s, run[0], c);
      ReapsExactly(s, run[0], c);
      if p !in t.reaped {
        ReapedExactly(t, run[1..], c, p);
      }
    }
  }

  /** A tick finds the page exposed in the part of the run after some step lost it. */
  ghost predicate TickAfterLoss(s: State, run: seq<Step>, c: nat)
    requires Executable(s, run)
    decreases |run|
  {
    && run != []
    && if Loses(s, run[0], c) then SomeTickHits(Apply(s, run[0]), run[1..], c)
       else TickAfterLoss(Apply(s, run[0]), run[1..], c)
  }

  lemma {:induction false} NoLossNoTick(s: State, run: seq<Step>, c: nat)
    requires Executable(s, run) && !SomeStepLoses(s, run, c)
    ensures !TickAfterLoss(s, run, c)
    decreases |run|
  {
    hide Apply, Loses;
    if run != [] {
      NoLossNoTick(Apply(s, run[0]), run[1..], c);
    }
  }

  /** The lease has been given the page: it is leased, attached or handed over. */
  predicate Held(p: Phase) { p.Leased? || p.Attached? || p.Done? }

  lemma HeldStays(s: State, step: Step, c: nat)
    requires Enabled(s, step) && c < |s.creations| && Held(s.creations[c].phase)
    ensures c < |Apply(s, step).creations|
    ensures Held(Apply(s, step).creations[c].phase) || s.creations[c].phase.page in Apply(s, step).removed
  {
    hide Apply;
    CreationsPersist(s, step, c);
    BoxCount(s, step);
  }

  lemma {:induction false} HeldPageIsHitAfterLoss(s: State, run: seq<Step>, c: nat)
    requires Inv(s) && Executable(s, run) && c < |s.creations| && Held(s.creations[c].phase) && !Lost(s, c)
    requires s.creations[c].phase.page !in After(s, run).removed
    ensures SomeTickHits(s, run, c) <==> TickAfterLoss(s, run, c)
    decreases |run|
  {
    hide Apply, Inv, Lost, Loses;
    if run != [] {
      var t := Apply(s, run[0]);
      StepKeeps(s, run[0]);
      LossStep(s, run[0], c);
      HeldStays(s, run[0], c);
      PageStays(s, run[0], c);
      RemovedStays(t, run[1..]);
      if !Loses(s, run[0], c) {
        HeldPageIsHitAfterLoss(t, run[1..], c);
      }
    }
  }

  /**
   Once its lease holds the page, the orphan reaper closes the page of a tab that is not
   removed exactly when a tick follows a step that loses the page; without such a step no
   interleaving closes it.
   */
  lemma HeldPageIsReapedExactly(s: State, run: seq<Step>, c: nat)
    requires Inv(s) && Executable(s, run) && c < |s.creations| && Held(s.creations[c].phase) && !Lost(s, c)
    requires s.creations[c].phase.page !in s.reaped && s.creations[c].phase.page !in After(s, run).removed
    ensures s.creations[c].phase.page in After(s, run).reaped <==> TickAfterLoss(s, run, c)
    ensures !SomeStepLoses(s, run, c) ==> s.creations[c].phase.page !in After(s, run).reaped
  {
    ReapedExactly(s, run, c, s.creations[c].phase.page);
    HeldPageIsHitAfterLoss(s, run, c);
    hide Apply, Inv, Loses, SomeTickHits;
    if !SomeStepLoses(s, run, c) {
      NoLossNoTick(s, run, c);
    }
  }

  // ----- the session of a creation is not closed as empty

  /** The creation is going on, or its tab exists. */
  predicate Ongoing(s: State, c: nat) {
    c < |s.creations| && !s.creations[c].phase.Failed? && !TabRemoved(s, c)
  }

  /** The empty-session check runs on the session of a lost page and finds no group and no lease. */
  predicate CloseHits(s: State, step: Step, c: nat) {
    && Known(s, c) && s.creations[c].phase.Done? && Lost(s, c)
    && ClosesAsEmpty(s, step, s.creations[c].session)
  }

  lemma ClosesOnlyLost(s: State, step: Step, c: nat)
    requires Inv(s) && Ongoing(s, c)
    ensures Known(s, c) && (ClosesAsEmpty(s, step, s.creations[c].session) <==> CloseHits(s, step, c))
  {
    InvGives(s, c);
    hide Inv;
  }

  lemma EmptiedGrows(s: State, step: Step, i: nat)
    requires Enabled(s, step) && i < |s.sessions|
    ensures i < |Apply(s, step).sessions|
    ensures i in Apply(s, step).emptied <==> i in s.emptied || ClosesAsEmpty(s, step, i)
  {
    hide BoxAfter, Creates, Removes, Reaps, LeasesAfter, PhaseAfter, ContextAfter, GroupsAfter, ClosesAsEmpty;
  }

  lemma EndedStays(s: State, step: Step, c: nat)
    requires Inv(s) && Enabled(s, step) && c < |s.creations| && !Ongoing(s, c)
    ensures c < |Apply(s, step).creations| && !Ongoing(Apply(s, step), c)
  {
    hide Apply, Inv;
    CreationsPersist(s, step, c);
    if TabRemoved(s, c) {
      LostStays(s, step, c);
    }
  }

  lemma {:induction false} EndedForGood(s: State, run: seq<Step>, c: nat)
    requires Inv(s) && Executable(s, run) && c < |s.creations| && !Ongoing(s, c)
    ensures !Ongoing(After(s, run), c)
    decreases |run|
  {
    hide Apply, Inv, Ongoing;
    if run != [] {
      StepKeeps(s, run[0]);
      EndedStays(s, run[0], c);
      EndedForGood(Apply(s, run[0]), run[1..], c);
    }
  }

  ghost predicate SomeCloseHits(s: State, run: seq<Step>, c: nat)
    requires Executable(s, run)
    decreases |run|
  {
    run != [] && (CloseHits(s, run[0], c) || SomeCloseHits(Apply(s, run[0]), run[1..], c))
  }

  lemma {:induction false} EmptiedStays(s: State, run: seq<Step>, i: nat)
    requires Executable(s, run) && i < |s.sessions| && i in s.emptied
    ensures i in After(s, run).emptied
    decreases |run|
  {
    hide Apply;
    if run != [] {
      EmptiedGrows(s, run[0], i);
      EmptiedStays(Apply(s, run[0]), run[1..], i);
    }
  }

  /**
   From the moment its lease is acquired, and as long as the creation has not failed and its
   tab is not removed, the empty-session check closes the session exactly when it finds the
   page handed over and lost, with no group and no lease left; without a step that loses the
   page it never does.
   */
  lemma {:induction false} SessionIsEmptiedExactly(s: State, run: seq<Step>, c: nat)
    requires Inv(s) && Executable(s, run) && c < |s.creations| && !Lost(s, c)
    requires s.creations[c].session !in s.emptied && Ongoing(After(s, run), c)
    ensures s.creations[c].session in After(s, run).emptied <==> SomeCloseHits(s, run, c)
    ensures !SomeStepLoses(s, run, c) ==> s.creations[c].session !in After(s, run).emptied
    decreases |run|
  {
    EmptiedExactly(s, run, c);
    hide Apply, Inv, Loses;
    if !SomeStepLoses(s, run, c) {
      NoLossNoClose(s, run, c);
    }
  }

  lemma {:induction false} EmptiedExactly(s: State, run: seq<Step>, c: nat)
    requires Inv(s) && Executable(s, run) && c < |s.creations|
    requires s.creations[c].session !in s.emptied && Ongoing(After(s, run), c)
    ensures s.creations[c].session in After(s, run).emptied <==> SomeCloseHits(s, run, c)
    decreases |run|
  {
    hide Apply, Inv, Ongoing, CloseHits, ClosesAsEmpty;
    if run != [] {
      var t, i := Apply(s, run[0]), s.creations[c].session;
      if !Ongoing(s, c) {
        EndedForGood(s, run, c);
      }
      ClosesOnlyLost(s, run[0], c);
      StepKeeps(s, run[0]);
      CreationsPersist(s, run[0], c);
      EmptiedGrows(s, run[0], i);
      if CloseHits(s, run[0], c) {
        EmptiedStays(t, run[1..], i);
      } else {
        EmptiedExactly(t, run[1..], c);
      }
    }
  }

  lemma {:induction false} NoLossNoClose(s: State, run: seq<Step>, c: nat)
    requires Inv(s) && Executable(s, run) && !Lost(s, c) && !SomeStepLoses(s, run, c)
    ensures !SomeCloseHits(s, run, c)
    decreases |run|
  {
    hide Apply, Inv, Lost, Loses;
    if run != [] {
      StepKeeps(s, run[0]);
      LossStep(s, run[0], c);
      NoLossNoClose(Apply(s, run[0]), run[1..], c);
    }
  }
}
