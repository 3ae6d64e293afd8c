/**
 Discovery of popular models: three sort strategies over five pipelines of a paged listing
 API, filtering and de-duplicating listings under a quota for each pipeline. What the API
 and the config files answer is arbitrary.
 */
module Discovery {
  import opened Optional
  import opened Text

  const PIPELINES := 5
  const PRIMARY := 0
  const STRATEGIES := 3
  const PAGE_SIZE := 1000
  const CONFIG_ATTEMPTS := 500
  const REJECTED_TAGS: set<string> := {"adapter", "merge", "lora", "qlora"}

  /** A listing: missing identifiers are empty, missing parameter totals zero. */
  datatype Listing = Listing(id: string, downloads: Option<int>, tags: set<string>, total: nat, byDtype: seq<nat>)

  datatype PageResult = FetchFailed | Page(models: seq<Listing>, more: bool)

  /**
   The outside world: the page answered to a request, the parameter estimate from a model's
   config file at a given attempt, the test for stub repositories and the skipped owners.
   */
  datatype World = World(
    page: (nat, nat, nat) -> PageResult,
    config: (string, nat) -> Option<nat>,
    isStub: string -> bool,
    skipOrgs: set<string>
  )

  // ----- judging one listing

  datatype Verdict =
    | Malformed
    | Curated
    | Duplicate
    | SkippedOrg
    | TestStub
    | LowDownloads
    | Tagged
    | NoParams(fetched: bool)
    | FromSafetensors
    | FromConfig

  predicate Accepts(v: Verdict) { v.FromSafetensors? || v.FromConfig? }

  /** The listing got past the duplicate test and is remembered. */
  predicate Remembers(v: Verdict) { !v.Malformed? && !v.Curated? && !v.Duplicate? }

  predicate Fetches(v: Verdict) { v.FromConfig? || (v.NoParams? && v.fetched) }

  predicate WellFormedId(id: string) { id != "" && '/' in id }

  function Owner(id: string): string { Split(id, '/')[0] }

  function MaxOf(xs: seq<nat>): nat {
    if xs == [] then 0
    else
      var m := MaxOf(xs[1..]);
      if xs[0] > m then xs[0] else m
  }

  function SafetensorParams(m: Listing): nat {
    if m.total != 0 then m.total else MaxOf(m.byDtype)
  }

  predicate TooFewDownloads(m: Listing, minimum: int, floor: bool) {
    (if m.downloads.Some? then m.downloads.value else 0) < minimum && (floor || m.downloads.Some?)
  }

  function Judge(m: Listing, curated: set<string>, seen: set<string>, minimum: int, floor: bool, attempts: nat, w: World): Verdict {
    if !WellFormedId(m.id) then Malformed
    else if m.id in curated then Curated
    else if m.id in seen then Duplicate
    else if Owner(m.id) in w.skipOrgs then SkippedOrg
    else if w.isStub(m.id) then TestStub
    else if TooFewDownloads(m, minimum, floor) then LowDownloads
    else if m.tags * REJECTED_TAGS != {} then Tagged
    else if SafetensorParams(m) != 0 then FromSafetensors
    else if attempts >= CONFIG_ATTEMPTS then NoParams(false)
    else if w.config(m.id, attempts).Some? && w.config(m.id, attempts).value != 0 then FromConfig
    else NoParams(true)
  }

  // ----- the statistics

  datatype Stats = Stats(
    totalSeen: nat, curated: nat, duplicate: nat, org: nat, testStub: nat, downloads: nat, tags: nat, noParams: nat,
    fromSafetensors: nat, fromConfig: nat, accepted: nat)

  function NoStats(): Stats {
    Stats(0, 0, 0, 0, 0, 0, 0, 0, 0, 0, 0)
  }

  function Tally(s: Stats, v: Verdict): Stats {
    var t := if v.Malformed? then s else s.(totalSeen := s.totalSeen + 1);
    match v
    case Malformed => t
    case Curated => t.(curated := t.curated + 1)
    case Duplicate => t.(duplicate := t.duplicate + 1)
    case SkippedOrg => t.(org := t.org + 1)
    case TestStub => t.(testStub := t.testStub + 1)
    case LowDownloads => t.(downloads := t.downloads + 1)
    case Tagged => t.(tags := t.tags + 1)
    case NoParams(_) => t.(noParams := t.noParams + 1)
    case FromSafetensors => t.(fromSafetensors := t.fromSafetensors + 1, accepted := t.accepted + 1)
    case FromConfig => t.(fromConfig := t.fromConfig + 1, accepted := t.accepted + 1)
  }

  /** Every listing seen is either skipped for one reason or accepted from one source. */
  ghost predicate Balanced(s: Stats) {
    && s.totalSeen ==
         s.curated + s.duplicate + s.org + s.testStub + s.downloads + s.tags + s.noParams + s.accepted
    && s.accepted == s.fromSafetensors + s.fromConfig
  }

  lemma TallyKeepsBalance(s: Stats, v: Verdict)
    requires Balanced(s)
    ensures Balanced(Tally(s, v))
  {
  }

  function Attempts(s: Stats): nat { s.fromConfig + s.noParams }

  // ----- discovered models

  datatype Found = Found(id: string, pipeline: nat)

  ghost function CountIn(found: seq<Found>, pipeline: nat): nat {
    if found == [] then 0
    else CountIn(found[..|found| - 1], pipeline) + if found[|found| - 1].pipeline == pipeline then 1 else 0
  }

  lemma CountInAppend(found: seq<Found>, f: Found, pipeline: nat)
    ensures CountIn(found + [f], pipeline) == CountIn(found, pipeline) + if f.pipeline == pipeline then 1 else 0
  {
    assert (found + [f])[..|found|] == found;
  }

  ghost predicate DistinctIds(found: seq<Found>) {
    forall i, j :: 0 <= i < j < |found| ==> found[i].id != found[j].id
  }

  /** The quota of each pipeline: the whole limit for the primary one, a fifth, at least one, for the others. */
  function Quota(limit: int, pipeline: nat): int {
    if pipeline == PRIMARY then limit else if limit / PIPELINES < 1 then 1 else limit / PIPELINES
  }

  function Minimum(minDownloads: int, strategy: nat): int {
    if strategy == 0 then minDownloads else if minDownloads / 10 < 1000 then 1000 else minDownloads / 10
  }

  function MaxPages(strategy: nat): nat { if strategy == 0 then 50 else 5 }

  ghost function AtMost(quota: int): nat { if quota < 0 then 0 else quota }

  /** The quota of the primary pipeline is the limit; the others get a fifth of it, rounded down, but at least one. */
  lemma QuotasAre(limit: int, pipeline: nat)
    ensures pipeline == PRIMARY ==> Quota(limit, pipeline) == limit
    ensures pipeline != PRIMARY ==>
      Quota(limit, pipeline) >= 1 && (limit < 10 ==> Quota(limit, pipeline) == 1)
      && (limit >= 5 ==> 5 * Quota(limit, pipeline) <= limit < 5 * Quota(limit, pipeline) + 5)
  {
  }

  /** Sorted by downloads the minimum is the one asked for; otherwise a tenth of it, rounded down, but at least 1000. */
  lemma MinimumIs(minDownloads: int, strategy: nat)
    ensures strategy == 0 ==> Minimum(minDownloads, strategy) == minDownloads
    ensures strategy != 0 ==>
      var m := Minimum(minDownloads, strategy);
      m >= 1000 && (m == 1000 || 10 * m <= minDownloads) && minDownloads < 10 * m + 10
  {
  }

  // ----- the discovery as a function of the world

  /** The arguments and the curated list of one discovery. */
  datatype Setting = Setting(limit: int, minDownloads: int, curated: set<string>, world: World)

  /** One page asked for: sort strategy, pipeline and page number. */
  datatype Request = Request(strategy: nat, pipeline: nat, page: nat)

  /** A listing that was read for a pipeline, with its verdict. */
  datatype Judged = Judged(listing: Listing, strategy: nat, pipeline: nat, verdict: Verdict)

  /**
   `asked` and `read` record the pages asked for and the listings read, in order;
   `configFetches` counts the config files asked for.
   */
  datatype State = State(
    seen: set<string>, stats: Stats, discovered: seq<Found>, counts: seq<nat>, configFetches: nat,
    asked: seq<Request>, read: seq<Judged>)

  function Start(): State {
    State({}, NoStats(), [], NoCounts(), 0, [], [])
  }

  function NoCounts(): (r: seq<nat>)
    ensures |r| == PIPELINES && forall p :: 0 <= p < PIPELINES ==> r[p] == 0
  {
    seq(PIPELINES, _ => 0)
  }

  predicate Full(e: Setting, s: State, pipeline: nat) {
    pipeline < |s.counts| && s.counts[pipeline] >= Quota(e.limit, pipeline)
  }

  predicate AllFull(e: Setting, s: State) {
    QuotasFull(e, s.counts)
  }

  predicate QuotasFull(e: Setting, counts: seq<nat>) {
    forall p :: 0 <= p < PIPELINES ==> QuotaFull(e, counts, p)
  }

  predicate QuotaFull(e: Setting, counts: seq<nat>, pipeline: nat) {
    pipeline < |counts| && counts[pipeline] >= Quota(e.limit, pipeline)
  }

  function VerdictOn(e: Setting, s: State, m: Listing, strategy: nat): Verdict {
    Judge(m, e.curated, s.seen, Minimum(e.minDownloads, strategy), strategy == 0, Attempts(s.stats), e.world)
  }

  /** One listing taken for a pipeline. */
  function Taken(e: Setting, s: State, m: Listing, strategy: nat, pipeline: nat): State {
    var v := VerdictOn(e, s, m, strategy);
    var t := s.(
      stats := Tally(s.stats, v),
      seen := s.seen + (if Remembers(v) then {m.id} else {}),
      configFetches := s.configFetches + (if Fetches(v) then 1 else 0),
      read := s.read + [Judged(m, strategy, pipeline, v)]);
    if Accepts(v) && pipeline < |s.counts| then
      t.(discovered := s.discovered + [Found(m.id, pipeline)], counts := Bump(s.counts, pipeline))
    else t
  }

  function Bump(counts: seq<nat>, pipeline: nat): seq<nat>
    requires pipeline < |counts|
  {
    counts[pipeline := counts[pipeline] + 1]
  }

  /** A refused listing that counts towards the download floor. */
  predicate BelowFloor(e: Setting, s: State, m: Listing, strategy: nat) {
    && !Accepts(VerdictOn(e, s, m, strategy))
    && WellFormedId(m.id) && m.id !in e.curated
    && m.downloads.Some? && m.downloads.value < Minimum(e.minDownloads, strategy)
  }

  /** The listings of a page from the `i`-th on, until the quota is full; counts those below the floor. */
  function PageTaken(e: Setting, s: State, models: seq<Listing>, i: nat, strategy: nat, pipeline: nat): (State, nat)
    requires i <= |models|
    decreases |models| - i
  {
    if i == |models| then (s, 0)
    else
      var t := Taken(e, s, models[i], strategy, pipeline);
      var here := if BelowFloor(e, s, models[i], strategy) then 1 else 0;
      if Accepts(VerdictOn(e, s, models[i], strategy)) && Full(e, t, pipeline) then (t, here)
      else
        var (r, rest) := PageTaken(e, t, models, i + 1, strategy, pipeline);
        (r, here + rest)
  }

  function Asking(s: State, r: Request): State {
    s.(asked := s.asked + [r])
  }

  /** The pages of one pipeline under one strategy after `pages` of them were requested. */
  function PipelineTaken(e: Setting, s: State, strategy: nat, pipeline: nat, pages: nat, more: bool): State
    decreases MaxPages(strategy) - pages
  {
    if Full(e, s, pipeline) || !more || pages >= MaxPages(strategy) then s
    else
      var t := Asking(s, Request(strategy, pipeline, pages + 1));
      match e.world.page(strategy, pipeline, pages + 1)
      case FetchFailed => t
      case Page(models, next) =>
        if models == [] then t
        else
          var (u, below) := PageTaken(e, t, models, 0, strategy, pipeline);
          if (strategy == 0 && below * 5 > |models| * 4) || |models| < PAGE_SIZE then u
          else PipelineTaken(e, u, strategy, pipeline, pages + 1, next)
  }

  /** The pipelines from `pipeline` on under one strategy. */
  function StrategyTaken(e: Setting, s: State, strategy: nat, pipeline: nat): State
    requires pipeline <= PIPELINES
    decreases PIPELINES - pipeline
  {
    if pipeline == PIPELINES then s
    else if Full(e, s, pipeline) then StrategyTaken(e, s, strategy, pipeline + 1)
    else
      var t := PipelineTaken(e, s, strategy, pipeline, 0, true);
      if AllFull(e, t) then t else StrategyTaken(e, t, strategy, pipeline + 1)
  }

  /** The strategies from `strategy` on. */
  function Discovered(e: Setting, s: State, strategy: nat): State
    requires strategy <= STRATEGIES
    decreases STRATEGIES - strategy
  {
    if strategy == STRATEGIES then s
    else
      var t := StrategyTaken(e, s, strategy, 0);
      if AllFull(e, t) then t else Discovered(e, t, strategy + 1)
  }

  // ----- what the record of listings explains

  /** Kinds of listings to count. */
  datatype Kind =
    | Seen | InCurated | Repeated | OfSkippedOrg | Stub | Low | Rejected | WithoutParams | ByTensors | ByConfig | Accepted
    | NeedingConfig | Fetching

  predicate Fits(v: Verdict, kind: Kind) {
    match kind
    case Seen => !v.Malformed?
    case InCurated => v.Curated?
    case Repeated => v.Duplicate?
    case OfSkippedOrg => v.SkippedOrg?
    case Stub => v.TestStub?
    case Low => v.LowDownloads?
    case Rejected => v.Tagged?
    case WithoutParams => v.NoParams?
    case ByTensors => v.FromSafetensors?
    case ByConfig => v.FromConfig?
    case Accepted => v.FromSafetensors? || v.FromConfig?
    case NeedingConfig => v.FromConfig? || v.NoParams?
    case Fetching => v.FromConfig? || (v.NoParams? && v.fetched)
  }

  ghost function CountRead(read: seq<Judged>, kind: Kind): nat {
    if read == [] then 0
    else CountRead(read[..|read| - 1], kind) + if Fits(read[|read| - 1].verdict, kind) then 1 else 0
  }

  /** The statistics say how many of the listings read got each verdict. */
  ghost predicate Counted(read: seq<Judged>, s: Stats) {
    && s.totalSeen == CountRead(read, Seen)
    && s.curated == CountRead(read, InCurated) && s.duplicate == CountRead(read, Repeated)
    && s.org == CountRead(read, OfSkippedOrg) && s.testStub == CountRead(read, Stub)
    && s.downloads == CountRead(read, Low) && s.tags == CountRead(read, Rejected)
    && s.noParams == CountRead(read, WithoutParams)
    && s.fromSafetensors == CountRead(read, ByTensors) && s.fromConfig == CountRead(read, ByConfig)
    && s.accepted == CountRead(read, Accepted)
  }

  /** The accepted listings, in the order they were read, each for its pipeline. */
  ghost function FoundIn(read: seq<Judged>): seq<Found> {
    if read == [] then []
    else
      var front, j := FoundIn(read[..|read| - 1]), read[|read| - 1];
      if j.verdict.FromSafetensors? || j.verdict.FromConfig? then front + [Found(j.listing.id, j.pipeline)] else front
  }

  /** The id names an owner and a model. */
  ghost predicate ProperId(id: string) {
    exists i :: 0 <= i < |id| && id[i] == '/'
  }

  ghost predicate WasRead(read: seq<Judged>, id: string) {
    exists j :: 0 <= j < |read| && read[j].listing.id == id
  }

  /** Well formed, not curated and not read before: the listing gets to the filters. */
  ghost predicate IsNew(e: Setting, before: seq<Judged>, m: Listing) {
    ProperId(m.id) && m.id !in e.curated && !WasRead(before, m.id)
  }

  /** Too few downloads for the strategy; a missing number counts only when sorting by downloads. */
  ghost predicate TooFew(e: Setting, m: Listing, strategy: nat) {
    match m.downloads
    case Some(n) => n < Minimum(e.minDownloads, strategy)
    case None => strategy == 0 && 0 < Minimum(e.minDownloads, strategy)
  }

  /** The filters a new listing has to pass before its parameters are looked at. */
  ghost predicate PassesFilters(e: Setting, m: Listing, strategy: nat) {
    Owner(m.id) !in e.world.skipOrgs && !e.world.isStub(m.id) && !TooFew(e, m, strategy)
    && forall tag :: tag in m.tags ==> tag !in REJECTED_TAGS
  }

  ghost predicate HasTensorParams(m: Listing) {
    m.total != 0 || exists n :: n in m.byDtype && n != 0
  }

  /** How often a config file was or would have been needed before. */
  ghost function Needed(before: seq<Judged>): nat {
    CountRead(before, NeedingConfig)
  }

  ghost predicate ConfigHasParams(e: Setting, before: seq<Judged>, m: Listing) {
    && Needed(before) < CONFIG_ATTEMPTS
    && e.world.config(m.id, Needed(before)).Some? && e.world.config(m.id, Needed(before)).value != 0
  }

  /** The verdict is the one the listing, and the listings read before it, call for. */
  ghost predicate Explained(e: Setting, before: seq<Judged>, j: Judged) {
    var m, v, isNew := j.listing, j.verdict, IsNew(e, before, j.listing);
    && (v.Malformed? <==> !ProperId(m.id))
    && (v.Curated? <==> ProperId(m.id) && m.id in e.curated)
    && (v.Duplicate? <==> ProperId(m.id) && m.id !in e.curated && WasRead(before, m.id))
    && (v.SkippedOrg? <==> isNew && Owner(m.id) in e.world.skipOrgs)
    && (v.TestStub? <==> isNew && Owner(m.id) !in e.world.skipOrgs && e.world.isStub(m.id))
    && (v.LowDownloads? <==>
          isNew && Owner(m.id) !in e.world.skipOrgs && !e.world.isStub(m.id) && TooFew(e, m, j.strategy))
    && (v.FromSafetensors? <==> isNew && PassesFilters(e, m, j.strategy) && HasTensorParams(m))
    && (v.FromConfig? <==>
          isNew && PassesFilters(e, m, j.strategy) && !HasTensorParams(m) && ConfigHasParams(e, before, m))
    && (v.NoParams? <==>
          isNew && PassesFilters(e, m, j.strategy) && !HasTensorParams(m) && !ConfigHasParams(e, before, m))
    && (v.NoParams? ==> (v.fetched <==> Needed(before) < CONFIG_ATTEMPTS))
  }

  ghost predicate AllExplained(e: Setting, read: seq<Judged>) {
    forall j :: 0 <= j < |read| ==> Explained(e, read[..j], read[j])
  }

  ghost predicate SeenIsRead(e: Setting, seen: set<string>, read: seq<Judged>) {
    forall id :: id in seen <==> ProperId(id) && id !in e.curated && WasRead(read, id)
  }

  /** Everything the discovery keeps is what the record of listings says. */
  ghost predicate Recorded(e: Setting, s: State) {
    && Counted(s.read, s.stats) && s.discovered == FoundIn(s.read) && s.configFetches == CountRead(s.read, Fetching)
    && SeenIsRead(e, s.seen, s.read) && AllExplained(e, s.read)
  }

  lemma CountReadSnoc(read: seq<Judged>, j: Judged, kind: Kind)
    ensures CountRead(read + [j], kind) == CountRead(read, kind) + if Fits(j.verdict, kind) then 1 else 0
  {
    assert (read + [j])[..|read|] == read;
  }

  lemma CountedSnoc(read: seq<Judged>, j: Judged, s: Stats)
    requires Counted(read, s)
    ensures Counted(read + [j], Tally(s, j.verdict))
  {
    CountReadSnoc(read, j, Seen);
    CountReadSnoc(read, j, InCurated);
    CountReadSnoc(read, j, Repeated);
    CountReadSnoc(read, j, OfSkippedOrg);
    CountReadSnoc(read, j, Stub);
    CountReadSnoc(read, j, Low);
    CountReadSnoc(read, j, Rejected);
    CountReadSnoc(read, j, WithoutParams);
    CountReadSnoc(read, j, ByTensors);
    CountReadSnoc(read, j, ByConfig);
    CountReadSnoc(read, j, Accepted);
    hide CountRead;
  }

  lemma {:induction false} NeededIsAttempts(read: seq<Judged>)
    ensures Needed(read) == CountRead(read, ByConfig) + CountRead(read, WithoutParams)
  {
    if read != [] {
      var front, j := read[..|read| - 1], read[|read| - 1];
      NeededIsAttempts(front);
      assert read == front + [j];
      CountReadSnoc(front, j, NeedingConfig);
      CountReadSnoc(front, j, ByConfig);
      CountReadSnoc(front, j, WithoutParams);
      hide CountRead;
    }
  }

  lemma {:induction false} MaxOfIsPositive(xs: seq<nat>)
    ensures MaxOf(xs) != 0 <==> exists n :: n in xs && n != 0
  {
    if xs != [] {
      MaxOfIsPositive(xs[1..]);
      assert forall n :: n in xs <==> n == xs[0] || n in xs[1..];
      assert xs[0] in xs;
    }
  }

  lemma Apart(a: set<string>, b: set<string>)
    ensures a * b == {} <==> forall x :: x in a ==> x !in b
  {
    if x :| x in a && x in b {
      assert x in a * b;
    }
  }

  lemma JudgeExplains(e: Setting, s: State, m: Listing, strategy: nat, pipeline: nat)
    requires Recorded(e, s)
    ensures Explained(e, s.read, Judged(m, strategy, pipeline, VerdictOn(e, s, m, strategy)))
  {
    hide Needed, MaxOf, SafetensorParams, HasTensorParams, TooFewDownloads, TooFew, WasRead, WellFormedId, ProperId, Owner,
      Attempts, Recorded, Minimum, REJECTED_TAGS, CountRead;
    SameTests(e, s, m, strategy);
    hide PassesFilters;
    assert PassesFilters(e, m, strategy) <==>
      && Owner(m.id) !in e.world.skipOrgs && !e.world.isStub(m.id)
      && !TooFewDownloads(m, Minimum(e.minDownloads, strategy), strategy == 0) && m.tags * REJECTED_TAGS == {}
      by { FiltersAre(e, m, strategy); }
  }

  lemma FiltersAre(e: Setting, m: Listing, strategy: nat)
    ensures PassesFilters(e, m, strategy) <==>
      && Owner(m.id) !in e.world.skipOrgs && !e.world.isStub(m.id)
      && !TooFewDownloads(m, Minimum(e.minDownloads, strategy), strategy == 0) && m.tags * REJECTED_TAGS == {}
  {
    hide Minimum, Owner, REJECTED_TAGS;
    Apart(m.tags, REJECTED_TAGS);
  }

  /** The tests of the script, said of the listing and the listings read before. */
  lemma SameTests(e: Setting, s: State, m: Listing, strategy: nat)
    requires Recorded(e, s)
    ensures Attempts(s.stats) == Needed(s.read) && (SafetensorParams(m) != 0 <==> HasTensorParams(m))
    ensures TooFewDownloads(m, Minimum(e.minDownloads, strategy), strategy == 0) <==> TooFew(e, m, strategy)
    ensures WellFormedId(m.id) <==> ProperId(m.id)
    ensures m.id in s.seen <==> ProperId(m.id) && m.id !in e.curated && WasRead(s.read, m.id)
  {
    hide CountRead, Explained, WasRead, Minimum;
    NeededIsAttempts(s.read);
    MaxOfIsPositive(m.byDtype);
  }

  lemma ReadSnoc(read: seq<Judged>, j: Judged, id: string)
    ensures WasRead(read + [j], id) <==> WasRead(read, id) || j.listing.id == id
    ensures FoundIn(read + [j]) ==
      FoundIn(read) + if j.verdict.FromSafetensors? || j.verdict.FromConfig? then [Found(j.listing.id, j.pipeline)] else []
  {
    var all := read + [j];
    assert all[..|read|] == read && all[|read|] == j;
    assert forall i :: 0 <= i < |read| ==> all[i] == read[i];
    assert FoundIn(read) + [] == FoundIn(read);
  }

  lemma ExplainedSnoc(e: Setting, read: seq<Judged>, j: Judged)
    requires AllExplained(e, read) && Explained(e, read, j)
    ensures AllExplained(e, read + [j])
  {
    hide Explained;
    var all := read + [j];
    forall i | 0 <= i < |all| ensures Explained(e, all[..i], all[i]) {
      if i < |read| {
        assert all[..i] == read[..i] && all[i] == read[i];
      } else {
        assert all[..i] == read;
      }
    }
  }

  lemma SeenSnoc(e: Setting, seen: set<string>, read: seq<Judged>, j: Judged)
    requires SeenIsRead(e, seen, read) && Explained(e, read, j)
    ensures SeenIsRead(e, seen + (if Remembers(j.verdict) then {j.listing.id} else {}), read + [j])
  {
    hide WasRead, ProperId, PassesFilters, HasTensorParams, ConfigHasParams, TooFew, FoundIn;
    var seen' := seen + if Remembers(j.verdict) then {j.listing.id} else {};
    forall id ensures id in seen' <==> ProperId(id) && id !in e.curated && WasRead(read + [j], id) {
      ReadSnoc(read, j, id);
    }
  }

  lemma TakenRecords(e: Setting, s: State, m: Listing, strategy: nat, pipeline: nat)
    requires Recorded(e, s) && pipeline < |s.counts|
    ensures Recorded(e, Taken(e, s, m, strategy, pipeline))
  {
    hide VerdictOn, Tally, Counted, CountRead, FoundIn, Explained, AllExplained, SeenIsRead;
    var v := VerdictOn(e, s, m, strategy);
    var j := Judged(m, strategy, pipeline, v);
    JudgeExplains(e, s, m, strategy, pipeline);
    CountedSnoc(s.read, j, s.stats);
    CountReadSnoc(s.read, j, Fetching);
    ReadSnoc(s.read, j, "");
    SeenSnoc(e, s.seen, s.read, j);
    ExplainedSnoc(e, s.read, j);
  }

  // ----- what every step keeps

  /** The statistics balance, the models are distinct and new, and no quota is exceeded. */
  ghost predicate Consistent(e: Setting, s: State) {
    && Balanced(s.stats) && s.stats.accepted == |s.discovered|
    && s.configFetches == (if Attempts(s.stats) < CONFIG_ATTEMPTS then Attempts(s.stats) else CONFIG_ATTEMPTS)
    && DistinctIds(s.discovered) && s.seen !! e.curated
    && (forall i :: 0 <= i < |s.discovered| ==> s.discovered[i].id in s.seen)
    && Recorded(e, s) && |s.counts| == PIPELINES
    && (forall p :: 0 <= p < PIPELINES ==>
          s.counts[p] == CountIn(s.discovered, p) && s.counts[p] <= AtMost(Quota(e.limit, p)))
  }

  lemma NoStatsBalance()
    ensures Balanced(NoStats()) && Attempts(NoStats()) == 0 && NoStats().accepted == 0
  {
    var s := NoStats();
    assert s.totalSeen == s.curated == s.duplicate == s.org == s.testStub == s.downloads == s.tags == 0;
    assert s.noParams == s.fromSafetensors == s.fromConfig == s.accepted == 0;
  }

  lemma NothingCounted(kind: Kind)
    ensures CountRead([], kind) == 0
  {
  }

  lemma NothingIsCounted()
    ensures Counted([], NoStats())
  {
    hide CountRead;
    NothingCounted(Seen);
    NothingCounted(InCurated);
    NothingCounted(Repeated);
    NothingCounted(OfSkippedOrg);
    NothingCounted(Stub);
    NothingCounted(Low);
    NothingCounted(Rejected);
    NothingCounted(WithoutParams);
    NothingCounted(ByTensors);
    NothingCounted(ByConfig);
    NothingCounted(Accepted);
  }

  lemma StartIsRecorded(e: Setting)
    ensures Recorded(e, Start())
  {
    NothingIsCounted();
    NothingCounted(Fetching);
    hide CountRead, NoCounts, Explained, NoStats, Counted, ProperId;
  }

  lemma StartIsConsistent(e: Setting)
    ensures Consistent(e, Start()) && Start().asked == []
  {
    NoStatsBalance();
    StartIsRecorded(e);
    hide Quota, NoCounts, NoStats, Balanced, Attempts, Recorded;
  }

  lemma TallyCounts(s: Stats, v: Verdict)
    ensures Tally(s, v).accepted == s.accepted + if Accepts(v) then 1 else 0
    ensures Attempts(Tally(s, v)) == Attempts(s) + if v.FromConfig? || v.NoParams? then 1 else 0
  {
  }

  /** New memory is never curated, never seen before, and a config file is read only within the limit. */
  lemma JudgeFacts(m: Listing, curated: set<string>, seen: set<string>, minimum: int, floor: bool, attempts: nat, w: World)
    ensures
      var v := Judge(m, curated, seen, minimum, floor, attempts, w);
      && (Accepts(v) ==> Remembers(v))
      && (Remembers(v) ==> m.id !in curated && m.id !in seen)
      && (v.FromConfig? || v.NoParams? ==> (Fetches(v) <==> attempts < CONFIG_ATTEMPTS))
  {
  }

  /** An accepted listing passes every filter, and a well-formed one is refused only by one of them. */
  lemma AcceptedExactly(m: Listing, curated: set<string>, seen: set<string>, minimum: int, floor: bool, attempts: nat, w: World)
    ensures Accepts(Judge(m, curated, seen, minimum, floor, attempts, w)) <==>
      && WellFormedId(m.id) && m.id !in curated && m.id !in seen
      && Owner(m.id) !in w.skipOrgs && !w.isStub(m.id)
      && !TooFewDownloads(m, minimum, floor) && m.tags * REJECTED_TAGS == {}
      && (SafetensorParams(m) != 0
          || (attempts < CONFIG_ATTEMPTS && w.config(m.id, attempts).Some? && w.config(m.id, attempts).value != 0))
  {
  }

  lemma TakenKeeps(e: Setting, s: State, m: Listing, strategy: nat, pipeline: nat)
    requires Consistent(e, s) && pipeline < PIPELINES && !Full(e, s, pipeline)
    ensures Consistent(e, Taken(e, s, m, strategy, pipeline))
    ensures Taken(e, s, m, strategy, pipeline).asked == s.asked
    ensures !Accepts(VerdictOn(e, s, m, strategy)) ==> !Full(e, Taken(e, s, m, strategy, pipeline), pipeline)
  {
    hide Judge, Tally, Balanced, Minimum, Quota, Recorded;
    var v := VerdictOn(e, s, m, strategy);
    TallyKeepsBalance(s.stats, v);
    TallyCounts(s.stats, v);
    TakenRecords(e, s, m, strategy, pipeline);
    JudgeFacts(m, e.curated, s.seen, Minimum(e.minDownloads, strategy), strategy == 0, Attempts(s.stats), e.world);
    if Accepts(v) {
      var t := Taken(e, s, m, strategy, pipeline);
      forall p | 0 <= p < PIPELINES
        ensures CountIn(t.discovered, p) == CountIn(s.discovered, p) + if p == pipeline then 1 else 0
      {
        CountInAppend(s.discovered, Found(m.id, pipeline), p);
      }
    }
  }

  lemma {:induction false} PageKeeps(e: Setting, s: State, models: seq<Listing>, i: nat, strategy: nat, pipeline: nat)
    requires Consistent(e, s) && i <= |models| && pipeline < PIPELINES && !Full(e, s, pipeline)
    ensures
      var (t, below) := PageTaken(e, s, models, i, strategy, pipeline);
      Consistent(e, t) && t.asked == s.asked && below <= |models| - i
    decreases |models| - i
  {
    hide Consistent, Taken, Full, BelowFloor, VerdictOn;
    if i < |models| {
      TakenKeeps(e, s, models[i], strategy, pipeline);
      var t := Taken(e, s, models[i], strategy, pipeline);
      if !Full(e, t, pipeline) {
        PageKeeps(e, t, models, i + 1, strategy, pipeline);
      }
    }
  }

  lemma RequestsDoNotMatter(e: Setting, s: State, r: Request)
    requires Consistent(e, s)
    ensures Consistent(e, Asking(s, r))
    ensures forall p: nat :: Full(e, Asking(s, r), p) == Full(e, s, p)
  {
    hide Balanced, Attempts, CountIn, DistinctIds, Quota, Counted, AllExplained, SeenIsRead;
  }

  lemma {:induction false} PipelineKeeps(e: Setting, s: State, strategy: nat, pipeline: nat, pages: nat, more: bool)
    requires Consistent(e, s) && pipeline < PIPELINES && pages <= MaxPages(strategy)
    ensures
      var t := PipelineTaken(e, s, strategy, pipeline, pages, more);
      Consistent(e, t) && |t.asked| <= |s.asked| + MaxPages(strategy) - pages
    decreases MaxPages(strategy) - pages
  {
    hide Consistent, Full, PageTaken, MaxPages;
    if !Full(e, s, pipeline) && more && pages < MaxPages(strategy) {
      var t := Asking(s, Request(strategy, pipeline, pages + 1));
      RequestsDoNotMatter(e, s, Request(strategy, pipeline, pages + 1));
      var page := e.world.page(strategy, pipeline, pages + 1);
      if page.Page? && page.models != [] {
        PageKeeps(e, t, page.models, 0, strategy, pipeline);
        var u := PageTaken(e, t, page.models, 0, strategy, pipeline).0;
        PipelineKeeps(e, u, strategy, pipeline, pages + 1, page.more);
      }
    }
  }

  lemma {:induction false} StrategyKeeps(e: Setting, s: State, strategy: nat, pipeline: nat)
    requires Consistent(e, s) && pipeline <= PIPELINES
    ensures
      var t := StrategyTaken(e, s, strategy, pipeline);
      Consistent(e, t) && |t.asked| <= |s.asked| + (PIPELINES - pipeline) * MaxPages(strategy)
    decreases PIPELINES - pipeline
  {
    hide Consistent, Full, PipelineTaken;
    if pipeline < PIPELINES {
      PipelineKeeps(e, s, strategy, pipeline, 0, true);
      StrategyKeeps(e, s, strategy, pipeline + 1);
      StrategyKeeps(e, PipelineTaken(e, s, strategy, pipeline, 0, true), strategy, pipeline + 1);
    }
  }

  /**
   For arbitrary answers of the API: the discovery ends within 300 page requests and 500
   config fetches, the models it returns are distinct and not curated, every pipeline
   stays within its quota, and the statistics balance.
   */
  lemma DiscoveryIsBounded(e: Setting)
    ensures
      var t := Discovered(e, Start(), 0);
      && Consistent(e, t) && |t.asked| <= 300 && t.configFetches <= CONFIG_ATTEMPTS
      && DistinctIds(t.discovered) && (forall i :: 0 <= i < |t.discovered| ==> t.discovered[i].id !in e.curated)
      && (forall p :: 0 <= p < PIPELINES ==> CountIn(t.discovered, p) <= AtMost(Quota(e.limit, p)))
      && Balanced(t.stats) && t.stats.accepted == |t.discovered|
  {
    hide Consistent, Discovered, Balanced, DistinctIds, CountIn, Quota, Start, AtMost, RequestsLeft;
    StartIsConsistent(e);
    StrategiesKeep(e, Start(), 0);
    ConsistentMeans(e, Discovered(e, Start(), 0));
  }

  lemma ConsistentMeans(e: Setting, t: State)
    requires Consistent(e, t)
    ensures t.configFetches <= CONFIG_ATTEMPTS && t.stats.accepted == |t.discovered|
    ensures DistinctIds(t.discovered) && (forall i :: 0 <= i < |t.discovered| ==> t.discovered[i].id !in e.curated)
    ensures forall p :: 0 <= p < PIPELINES ==> CountIn(t.discovered, p) <= AtMost(Quota(e.limit, p))
    ensures Balanced(t.stats)
  {
    hide Balanced, DistinctIds, CountIn, Quota, AtMost;
  }

  /** At most 50 pages for each pipeline sorted by downloads, and five for each other pass. */
  function RequestsLeft(strategy: nat): nat
    requires strategy <= STRATEGIES
    decreases STRATEGIES - strategy
  {
    if strategy == STRATEGIES then 0 else PIPELINES * MaxPages(strategy) + RequestsLeft(strategy + 1)
  }

  lemma {:induction false} StrategiesKeep(e: Setting, s: State, strategy: nat)
    requires Consistent(e, s) && strategy <= STRATEGIES
    ensures
      var t := Discovered(e, s, strategy);
      Consistent(e, t) && |t.asked| <= |s.asked| + RequestsLeft(strategy)
    ensures strategy == 0 ==> RequestsLeft(strategy) == 300
    decreases STRATEGIES - strategy
  {
    hide Consistent, AllFull, StrategyTaken;
    if strategy < STRATEGIES {
      StrategyKeeps(e, s, strategy, 0);
      StrategiesKeep(e, StrategyTaken(e, s, strategy, 0), strategy + 1);
    }
    if strategy == 0 {
      assert RequestsLeft(3) == 0;
      assert RequestsLeft(2) == 25;
      assert RequestsLeft(1) == 50;
    }
  }

  // ----- which pages are asked for, and what is read of them

  /** A listing of too few downloads that is otherwise in order; it is never accepted. */
  ghost predicate IsLow(e: Setting, m: Listing, strategy: nat) {
    && WellFormedId(m.id) && m.id !in e.curated
    && m.downloads.Some? && m.downloads.value < Minimum(e.minDownloads, strategy)
  }

  ghost function LowCount(e: Setting, models: seq<Listing>, strategy: nat): nat {
    if models == [] then 0 else (if IsLow(e, models[0], strategy) then 1 else 0) + LowCount(e, models[1..], strategy)
  }

  lemma LowIsRefused(e: Setting, s: State, m: Listing, strategy: nat)
    ensures BelowFloor(e, s, m, strategy) <==> IsLow(e, m, strategy)
  {
    hide Minimum, Owner, SafetensorParams;
  }

  /** After such a page the pass goes on: a full page with a successor, not mostly below the floor. */
  ghost predicate GoesOn(e: Setting, strategy: nat, r: PageResult) {
    && r.Page? && r.more && |r.models| >= PAGE_SIZE
    && !(strategy == 0 && 5 * LowCount(e, r.models, strategy) > 4 * |r.models|)
  }

  /** The listings are taken one by one from the `i`-th on, all of them unless the quota fills. */
  ghost predicate ReadsBy(e: Setting, steps: seq<State>, models: seq<Listing>, i: nat, strategy: nat, pipeline: nat) {
    && |steps| >= 1 && i + |steps| - 1 <= |models|
    && (forall k :: 0 <= k < |steps| - 1 ==>
          !Full(e, steps[k], pipeline) && steps[k + 1] == Taken(e, steps[k], models[i + k], strategy, pipeline))
    && (i + |steps| - 1 < |models| ==> Full(e, steps[|steps| - 1], pipeline))
  }

  lemma ReadsCons(e: Setting, s: State, rest: seq<State>, models: seq<Listing>, i: nat, strategy: nat, pipeline: nat)
    requires i < |models| && !Full(e, s, pipeline) && ReadsBy(e, rest, models, i + 1, strategy, pipeline)
    requires rest[0] == Taken(e, s, models[i], strategy, pipeline)
    ensures ReadsBy(e, [s] + rest, models, i, strategy, pipeline)
  {
    hide Full, Taken;
    var steps := [s] + rest;
    forall k | 0 <= k < |steps| - 1
      ensures !Full(e, steps[k], pipeline) && steps[k + 1] == Taken(e, steps[k], models[i + k], strategy, pipeline)
    {
      if k > 0 {
        assert steps[k] == rest[k - 1] && steps[k + 1] == rest[k] && models[i + k] == models[i + 1 + (k - 1)];
      }
    }
  }

  lemma {:induction false} PageReads(e: Setting, s: State, models: seq<Listing>, i: nat, strategy: nat, pipeline: nat)
    returns (steps: seq<State>)
    requires Consistent(e, s) && i <= |models| && pipeline < PIPELINES && !Full(e, s, pipeline)
    ensures ReadsBy(e, steps, models, i, strategy, pipeline) && steps[0] == s
    ensures steps[|steps| - 1] == PageTaken(e, s, models, i, strategy, pipeline).0
    ensures !Full(e, steps[|steps| - 1], pipeline) ==>
      PageTaken(e, s, models, i, strategy, pipeline).1 == LowCount(e, models[i..], strategy)
    decreases |models| - i
  {
    hide Consistent, Taken, Full, BelowFloor, VerdictOn, IsLow;
    steps := [s];
    if i < |models| {
      TakenKeeps(e, s, models[i], strategy, pipeline);
      LowIsRefused(e, s, models[i], strategy);
      assert models[i..][1..] == models[i + 1..];
      var t := Taken(e, s, models[i], strategy, pipeline);
      if Full(e, t, pipeline) {
        steps := [s, t];
        assert PageTaken(e, s, models, i, strategy, pipeline).0 == t;
      } else {
        var rest := PageReads(e, t, models, i + 1, strategy, pipeline);
        ReadsCons(e, s, rest, models, i, strategy, pipeline);
        steps := [s] + rest;
      }
    }
  }

  /** One page is asked for and, if it comes, read. */
  ghost predicate PageStep(e: Setting, s: State, t: State, r: Request) {
    match e.world.page(r.strategy, r.pipeline, r.page)
    case FetchFailed => t == s.(asked := s.asked + [r])
    case Page(models, _) =>
      exists steps :: ReadsBy(e, steps, models, 0, r.strategy, r.pipeline)
        && steps[0] == s.(asked := s.asked + [r]) && steps[|steps| - 1] == t
  }

  /** The quota has room, the page limit is not reached and the page before goes on, so one more page is asked for. */
  ghost predicate NextAsked(e: Setting, s: State, t: State, r: Request, first: bool) {
    && !Full(e, s, r.pipeline) && 0 < r.page <= MaxPages(r.strategy) && PageStep(e, s, t, r)
    && (first || GoesOn(e, r.strategy, e.world.page(r.strategy, r.pipeline, r.page - 1)))
  }

  /**
   The pages after the first `pages` ones, in order; the pass ends only when the quota is
   full, the page limit is reached or the last page does not go on.
   */
  ghost predicate PassBy(e: Setting, states: seq<State>, strategy: nat, pipeline: nat, pages: nat, more: bool) {
    && |states| >= 1 && (|states| > 1 ==> more)
    && (forall k :: 0 <= k < |states| - 1 ==>
          NextAsked(e, states[k], states[k + 1], Request(strategy, pipeline, pages + k + 1), k == 0))
    && (|| Full(e, states[|states| - 1], pipeline)
        || pages + |states| - 1 >= MaxPages(strategy)
        || (if |states| == 1 then !more
            else !GoesOn(e, strategy, e.world.page(strategy, pipeline, pages + |states| - 1))))
  }

  lemma PassCons(e: Setting, s: State, rest: seq<State>, strategy: nat, pipeline: nat, pages: nat, next: bool)
    requires PassBy(e, rest, strategy, pipeline, pages + 1, next)
    requires NextAsked(e, s, rest[0], Request(strategy, pipeline, pages + 1), true)
    requires !Full(e, rest[0], pipeline) ==> (next <==> GoesOn(e, strategy, e.world.page(strategy, pipeline, pages + 1)))
    ensures PassBy(e, [s] + rest, strategy, pipeline, pages, true)
  {
    hide Full, PageStep, GoesOn, MaxPages;
    var states := [s] + rest;
    forall k | 0 <= k < |states| - 1
      ensures NextAsked(e, states[k], states[k + 1], Request(strategy, pipeline, pages + k + 1), k == 0)
    {
      if k > 0 {
        assert states[k] == rest[k - 1] && states[k + 1] == rest[k];
        assert NextAsked(e, rest[k - 1], rest[k], Request(strategy, pipeline, pages + 1 + (k - 1) + 1), k - 1 == 0);
        assert pages + 1 + (k - 1) + 1 == pages + k + 1;
      }
    }
  }

  /** The pass as the function computes it is one of these. */
  lemma {:induction false} PassIs(e: Setting, s: State, strategy: nat, pipeline: nat, pages: nat, more: bool)
    returns (states: seq<State>)
    requires Consistent(e, s) && pipeline < PIPELINES && pages <= MaxPages(strategy)
    ensures PassBy(e, states, strategy, pipeline, pages, more)
    ensures states[0] == s && states[|states| - 1] == PipelineTaken(e, s, strategy, pipeline, pages, more)
    decreases MaxPages(strategy) - pages
  {
    hide Consistent, Full, PageTaken, MaxPages, ReadsBy, LowCount;
    states := [s];
    if !Full(e, s, pipeline) && more && pages < MaxPages(strategy) {
      var r := Request(strategy, pipeline, pages + 1);
      var t := Asking(s, r);
      RequestsDoNotMatter(e, s, r);
      var page := e.world.page(strategy, pipeline, pages + 1);
      if page.FetchFailed? {
        states := [s, t];
        assert PageStep(e, s, t, r);
      } else {
        var steps := PageReads(e, t, page.models, 0, strategy, pipeline);
        assert page.models[0..] == page.models;
        PageKeeps(e, t, page.models, 0, strategy, pipeline);
        var (u, below) := PageTaken(e, t, page.models, 0, strategy, pipeline);
        assert PageStep(e, s, u, r);
        hide PageStep;
        if page.models == [] {
          assert u == t by { NothingToRead(e, t, strategy, pipeline); }
          states := [s, u];
        } else if (strategy == 0 && below * 5 > |page.models| * 4) || |page.models| < PAGE_SIZE {
          states := [s, u];
        } else {
          var rest := PassIs(e, u, strategy, pipeline, pages + 1, page.more);
          PassCons(e, s, rest, strategy, pipeline, pages, page.more);
          states := [s] + rest;
        }
      }
    }
  }

  lemma NothingToRead(e: Setting, s: State, strategy: nat, pipeline: nat)
    ensures PageTaken(e, s, [], 0, strategy, pipeline).0 == s
  {
  }

  ghost predicate EveryQuotaFull(e: Setting, s: State) {
    forall p :: 0 <= p < PIPELINES ==> Full(e, s, p)
  }

  lemma AllFullIs(e: Setting, s: State)
    ensures AllFull(e, s) <==> EveryQuotaFull(e, s)
  {
    hide Quota;
    assert forall p: nat :: Full(e, s, p) <==> QuotaFull(e, s.counts, p);
  }

  /** The pipelines from `pipeline` on: each one with room gets a pass, and only full quotas end this early. */
  ghost predicate StrategyBy(e: Setting, states: seq<State>, strategy: nat, pipeline: nat) {
    && 1 <= |states| <= PIPELINES - pipeline + 1
    && (forall k :: 0 <= k < |states| - 1 ==> OnePass(e, states[k], states[k + 1], strategy, pipeline + k))
    && (|states| == PIPELINES - pipeline + 1 || EveryQuotaFull(e, states[|states| - 1]))
  }

  ghost predicate OnePass(e: Setting, s: State, t: State, strategy: nat, pipeline: nat) {
    if Full(e, s, pipeline) then t == s
    else exists pass :: PassBy(e, pass, strategy, pipeline, 0, true) && pass[0] == s && pass[|pass| - 1] == t
  }

  lemma StrategyCons(e: Setting, s: State, rest: seq<State>, strategy: nat, pipeline: nat)
    requires pipeline < PIPELINES && StrategyBy(e, rest, strategy, pipeline + 1) && OnePass(e, s, rest[0], strategy, pipeline)
    ensures StrategyBy(e, [s] + rest, strategy, pipeline)
  {
    hide OnePass, EveryQuotaFull;
    var states := [s] + rest;
    forall k | 0 <= k < |states| - 1 ensures OnePass(e, states[k], states[k + 1], strategy, pipeline + k) {
      if k > 0 {
        assert states[k] == rest[k - 1] && states[k + 1] == rest[k] && pipeline + k == pipeline + 1 + (k - 1);
      }
    }
  }

  lemma {:induction false} StrategyIs(e: Setting, s: State, strategy: nat, pipeline: nat) returns (states: seq<State>)
    requires Consistent(e, s) && pipeline <= PIPELINES
    ensures StrategyBy(e, states, strategy, pipeline)
    ensures states[0] == s && states[|states| - 1] == StrategyTaken(e, s, strategy, pipeline)
    decreases PIPELINES - pipeline
  {
    hide Consistent, Full, PipelineTaken, PassBy, AllFull, EveryQuotaFull;
    states := [s];
    if pipeline < PIPELINES {
      var t := s;
      if !Full(e, s, pipeline) {
        PipelineKeeps(e, s, strategy, pipeline, 0, true);
        var pass := PassIs(e, s, strategy, pipeline, 0, true);
        t := PipelineTaken(e, s, strategy, pipeline, 0, true);
      }
      assert OnePass(e, s, t, strategy, pipeline);
      if !Full(e, s, pipeline) && AllFull(e, t) {
        AllFullIs(e, t);
        states := [s, t];
      } else {
        var rest := StrategyIs(e, t, strategy, pipeline + 1);
        StrategyCons(e, s, rest, strategy, pipeline);
        states := [s] + rest;
      }
    }
  }

  /** The strategies from `strategy` on, each over all pipelines; only full quotas end this early. */
  ghost predicate DiscoveryBy(e: Setting, states: seq<State>, strategy: nat) {
    && 1 <= |states| <= STRATEGIES - strategy + 1
    && (forall k :: 0 <= k < |states| - 1 ==> OneStrategy(e, states[k], states[k + 1], strategy + k))
    && (|states| == STRATEGIES - strategy + 1 || EveryQuotaFull(e, states[|states| - 1]))
  }

  ghost predicate OneStrategy(e: Setting, s: State, t: State, strategy: nat) {
    exists passes :: StrategyBy(e, passes, strategy, 0) && passes[0] == s && passes[|passes| - 1] == t
  }

  lemma DiscoveryCons(e: Setting, s: State, rest: seq<State>, strategy: nat)
    requires strategy < STRATEGIES && DiscoveryBy(e, rest, strategy + 1) && OneStrategy(e, s, rest[0], strategy)
    ensures DiscoveryBy(e, [s] + rest, strategy)
  {
    hide OneStrategy, EveryQuotaFull;
    var states := [s] + rest;
    forall k | 0 <= k < |states| - 1 ensures OneStrategy(e, states[k], states[k + 1], strategy + k) {
      if k > 0 {
        assert states[k] == rest[k - 1] && states[k + 1] == rest[k] && strategy + k == strategy + 1 + (k - 1);
      }
    }
  }

  lemma {:induction false} DiscoveryIs(e: Setting, s: State, strategy: nat) returns (states: seq<State>)
    requires Consistent(e, s) && strategy <= STRATEGIES
    ensures DiscoveryBy(e, states, strategy)
    ensures states[0] == s && states[|states| - 1] == Discovered(e, s, strategy)
    decreases STRATEGIES - strategy
  {
    hide Consistent, StrategyTaken, StrategyBy, AllFull, EveryQuotaFull;
    states := [s];
    if strategy < STRATEGIES {
      StrategyKeeps(e, s, strategy, 0);
      var t := StrategyTaken(e, s, strategy, 0);
      var passes := StrategyIs(e, s, strategy, 0);
      assert OneStrategy(e, s, t, strategy);
      if AllFull(e, t) {
        AllFullIs(e, t);
        states := [s, t];
      } else {
        var rest := DiscoveryIs(e, t, strategy + 1);
        DiscoveryCons(e, s, rest, strategy);
        states := [s] + rest;
      }
    }
  }

  /**
   The whole discovery, for arbitrary answers: it asks for exactly the pages that go on
   while quotas have room, reads every listing of them until the quota fills, and every
   statistic, every fetch and every discovered model is what the listings read call for.
   */
  lemma DiscoveryIsExplained(e: Setting) returns (states: seq<State>)
    ensures DiscoveryBy(e, states, 0) && states[0] == Start() && states[|states| - 1] == Discovered(e, Start(), 0)
    ensures Recorded(e, Discovered(e, Start(), 0))
  {
    hide Discovered, DiscoveryBy, Recorded, Start;
    StartIsConsistent(e);
    states := DiscoveryIs(e, Start(), 0);
    StrategiesKeep(e, Start(), 0);
    ConsistentIsRecorded(e, Discovered(e, Start(), 0));
  }

  lemma ConsistentIsRecorded(e: Setting, s: State)
    requires Consistent(e, s)
    ensures Recorded(e, s)
  {
  }

  // ----- the loops

  /** The discovery as the script runs it: counters, sets and lists updated in place. */
  class Discoverer {
    const setting: Setting
    var seen: set<string>
    var stats: Stats
    var discovered: seq<Found>
    var counts: seq<nat>
    var configFetches: nat
    /** What was asked for and read so far. */
    ghost var asked: seq<Request>
    ghost var read: seq<Judged>

    constructor (setting: Setting)
      ensures View() == Start() && this.setting == setting
    {
      this.setting := setting;
      seen, stats, discovered, counts := {}, NoStats(), [], NoCounts();
      configFetches, asked, read := 0, [], [];
    }

    ghost function View(): State
      reads this
    {
      State(seen, stats, discovered, counts, configFetches, asked, read)
    }

    /** Judges one listing; the statistics, the memory and the fetch counter follow the verdict. */
    method ProcessListing(m: Listing, minimum: int, floor: bool) returns (v: Verdict)
      modifies this`seen, this`stats, this`configFetches
      ensures v == Judge(m, setting.curated, old(seen), minimum, floor, Attempts(old(stats)), setting.world)
      ensures stats == Tally(old(stats), v)
      ensures seen == old(seen) + if Remembers(v) then {m.id} else {}
      ensures configFetches == old(configFetches) + if Fetches(v) then 1 else 0
    {
      v := Malformed;
      if m.id == "" || '/' !in m.id {
        return;
      }
      stats := stats.(totalSeen := stats.totalSeen + 1);
      if m.id in setting.curated {
        stats := stats.(curated := stats.curated + 1);
        return Curated;
      }
      if m.id in seen {
        stats := stats.(duplicate := stats.duplicate + 1);
        return Duplicate;
      }
      seen := seen + {m.id};
      if Owner(m.id) in setting.world.skipOrgs {
        stats := stats.(org := stats.org + 1);
        return SkippedOrg;
      }
      if setting.world.isStub(m.id) {
        stats := stats.(testStub := stats.testStub + 1);
        return TestStub;
      }
      if TooFewDownloads(m, minimum, floor) {
        stats := stats.(downloads := stats.downloads + 1);
        return LowDownloads;
      }
      if m.tags * REJECTED_TAGS != {} {
        stats := stats.(tags := stats.tags + 1);
        return Tagged;
      }
      var params := SafetensorParams(m);
      var fromConfig := false;
      if params == 0 && Attempts(stats) < CONFIG_ATTEMPTS {
        configFetches := configFetches + 1;
        var estimate := setting.world.config(m.id, Attempts(stats));
        params := if estimate.Some? then estimate.value else 0;
        fromConfig := true;
      }
      if params == 0 {
        stats := stats.(noParams := stats.noParams + 1);
        return NoParams(fromConfig);
      }
      if fromConfig {
        stats := stats.(fromConfig := stats.fromConfig + 1, accepted := stats.accepted + 1);
        return FromConfig;
      }
      stats := stats.(fromSafetensors := stats.fromSafetensors + 1, accepted := stats.accepted + 1);
      return FromSafetensors;
    }

    /** One listing of a page: judged, and put on the list of its pipeline when accepted. */
    method TakeListing(m: Listing, strategy: nat, pipeline: nat) returns (v: Verdict, below: nat)
      requires pipeline < |counts|
      modifies this
      ensures v == VerdictOn(setting, old(View()), m, strategy)
      ensures View() == Taken(setting, old(View()), m, strategy, pipeline) && |counts| == |old(counts)|
      ensures below == if BelowFloor(setting, old(View()), m, strategy) then 1 else 0
    {
      hide Judge, Tally, WellFormedId;
      v := ProcessListing(m, Minimum(setting.minDownloads, strategy), strategy == 0);
      read := read + [Judged(m, strategy, pipeline, v)];
      below := 0;
      if Accepts(v) {
        discovered := discovered + [Found(m.id, pipeline)];
        counts := Bump(counts, pipeline);
      } else if WellFormedId(m.id) && m.id !in setting.curated
        && m.downloads.Some? && m.downloads.value < Minimum(setting.minDownloads, strategy)
      {
        below := 1;
      }
    }

    /** One page of listings; stops as soon as the pipeline's quota is full. */
    method TakePage(models: seq<Listing>, strategy: nat, pipeline: nat) returns (below: nat)
      requires pipeline < |counts|
      modifies this
      ensures (View(), below) == PageTaken(setting, old(View()), models, 0, strategy, pipeline)
      ensures |counts| == |old(counts)|
    {
      hide Taken, VerdictOn, BelowFloor, Accepts, Quota;
      below := 0;
      var i := 0;
      while i < |models|
        invariant 0 <= i <= |models| && |counts| == |old(counts)|
        invariant
          var (t, rest) := PageTaken(setting, View(), models, i, strategy, pipeline);
          (t, below + rest) == PageTaken(setting, old(View()), models, 0, strategy, pipeline)
      {
        var v, here := TakeListing(models[i], strategy, pipeline);
        i, below := i + 1, below + here;
        if Accepts(v) && counts[pipeline] >= Quota(setting.limit, pipeline) {
          return;
        }
      }
    }

    /** All pages of one pipeline under one strategy. */
    method DiscoverPipeline(strategy: nat, pipeline: nat)
      requires pipeline < |counts|
      modifies this
      ensures View() == PipelineTaken(setting, old(View()), strategy, pipeline, 0, true)
      ensures |counts| == |old(counts)|
    {
      hide PageTaken, Quota, MaxPages;
      var more := true;
      var pageNum := 0;
      while counts[pipeline] < Quota(setting.limit, pipeline) && more && pageNum < MaxPages(strategy)
        invariant |counts| == |old(counts)|
        invariant PipelineTaken(setting, View(), strategy, pipeline, pageNum, more)
          == PipelineTaken(setting, old(View()), strategy, pipeline, 0, true)
        decreases MaxPages(strategy) - pageNum
      {
        pageNum := pageNum + 1;
        asked := asked + [Request(strategy, pipeline, pageNum)];
        var page := setting.world.page(strategy, pipeline, pageNum);
        if page.FetchFailed? || page.models == [] {
          return;
        }
        more := page.more;
        var below := TakePage(page.models, strategy, pipeline);
        if strategy == 0 && below * 5 > |page.models| * 4 {
          return;
        }
        if |page.models| < PAGE_SIZE {
          return;
        }
      }
    }

    /** One strategy over all pipelines with room. */
    method DiscoverStrategy(strategy: nat)
      requires |counts| == PIPELINES
      modifies this
      ensures View() == StrategyTaken(setting, old(View()), strategy, 0)
      ensures |counts| == PIPELINES
    {
      hide PipelineTaken, Quota;
      for pipeline := 0 to PIPELINES
        invariant |counts| == PIPELINES
        invariant StrategyTaken(setting, View(), strategy, pipeline) == StrategyTaken(setting, old(View()), strategy, 0)
      {
        if counts[pipeline] >= Quota(setting.limit, pipeline) {
          continue;
        }
        DiscoverPipeline(strategy, pipeline);
        if QuotasFull(setting, counts) {
          return;
        }
      }
    }

    /** The whole discovery. */
    method Discover()
      requires |counts| == PIPELINES
      modifies this
      ensures View() == Discovered(setting, old(View()), 0)
    {
      hide StrategyTaken, QuotasFull;
      for strategy := 0 to STRATEGIES
        invariant |counts| == PIPELINES
        invariant Discovered(setting, View(), strategy) == Discovered(setting, old(View()), 0)
      {
        DiscoverStrategy(strategy);
        if QuotasFull(setting, counts) {
          return;
        }
      }
    }
  }
}
