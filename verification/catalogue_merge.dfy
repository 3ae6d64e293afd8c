/**
 The additive merge of a fresh scrape with the existing model catalogue: scraped entries get
 back the fields the scrape dropped, and entries the scrape did not see are kept.
 */
module CatalogueMerge {

  /** A field value as read from the catalogue file. */
  datatype Json = Null | Bool(b: bool) | Num(n: int) | Str(s: string) | List(items: seq<Json>) | Dict(keys: seq<string>)

  predicate Truthy(j: Json) {
    match j
    case Null => false
    case Bool(b) => b
    case Num(n) => n != 0
    case Str(s) => s != ""
    case List(items) => items != []
    case Dict(keys) => keys != []
  }

  type Fields = map<string, Json>

  function Get(f: Fields, key: string): Json {
    if key in f then f[key] else Null
  }

  const DEFAULT_CONTEXT_LENGTH := Num(4096)

  const HEADS := "num_attention_heads"

  const CONTEXT := "context_length"

  /** Fields restored when the scraped value is empty in any sense. */
  const PLAIN_KEYS: seq<string> :=
    ["license", "gguf_sources", "hf_downloads", "hf_likes", "release_date", "languages"]

  /** Architecture fields, restored only when the scraped value is missing. */
  const ARCH_KEYS: seq<string> := [
    "num_hidden_layers", HEADS, "num_key_value_heads", "head_dim",
    "hidden_size", "vocab_size", "moe_intermediate_size", "shared_expert_intermediate_size"
  ]

  // ----- restoring one entry

  predicate RestoresPlain(prior: Fields, scraped: Fields, key: string) {
    Truthy(Get(prior, key)) && !Truthy(Get(scraped, key))
  }

  predicate RestoresArch(prior: Fields, scraped: Fields, key: string) {
    Get(prior, key) != Null && Get(scraped, key) == Null
  }

  /** The old context length comes back only together with lost attention heads. */
  predicate RestoresContext(prior: Fields, scraped: Fields) {
    && Get(scraped, CONTEXT) == DEFAULT_CONTEXT_LENGTH
    && Get(prior, CONTEXT) != Null && Get(prior, CONTEXT) != DEFAULT_CONTEXT_LENGTH
    && RestoresArch(prior, scraped, HEADS)
  }

  predicate Restores(prior: Fields, scraped: Fields, key: string) {
    if key in PLAIN_KEYS then RestoresPlain(prior, scraped, key)
    else if key in ARCH_KEYS then RestoresArch(prior, scraped, key)
    else key == CONTEXT && RestoresContext(prior, scraped)
  }

  /** The scraped fields with every restored one taken from the old entry. */
  function Preserved(prior: Fields, scraped: Fields): Fields {
    map k | k in scraped.Keys + prior.Keys && (k in scraped || Restores(prior, scraped, k)) ::
      if Restores(prior, scraped, k) then Get(prior, k) else Get(scraped, k)
  }

  /** The values that count as empty. */
  ghost predicate IsEmpty(j: Json) {
    j == Null || j == Bool(false) || j == Num(0) || j == Str("") || j == List([]) || j == Dict([])
  }

  /** A descriptive field that the scrape left empty comes back; any other scraped value stays. */
  lemma PlainFieldsComeBack(prior: Fields, scraped: Fields, key: string)
    requires key in PLAIN_KEYS
    ensures Get(Preserved(prior, scraped), key) ==
      if IsEmpty(Get(scraped, key)) && !IsEmpty(Get(prior, key)) then Get(prior, key) else Get(scraped, key)
  {
    PreservedGet(prior, scraped, key);
    TruthyIsNotEmpty(Get(prior, key));
    TruthyIsNotEmpty(Get(scraped, key));
    hide Preserved, Truthy, IsEmpty, PLAIN_KEYS, ARCH_KEYS;
  }

  lemma TruthyIsNotEmpty(j: Json)
    ensures Truthy(j) <==> !IsEmpty(j)
  {
  }

  /** A context length comes back exactly when the scrape has the default one, lost the heads, and a better one was known. */
  lemma ContextComesBack(prior: Fields, scraped: Fields)
    ensures Get(Preserved(prior, scraped), CONTEXT) ==
      if Get(scraped, CONTEXT) == Num(4096) && Get(scraped, HEADS) == Null && Get(prior, HEADS) != Null
        && Get(prior, CONTEXT) != Null && Get(prior, CONTEXT) != Num(4096)
      then Get(prior, CONTEXT) else Get(scraped, CONTEXT)
  {
    PreservedGet(prior, scraped, CONTEXT);
    KeysApart();
    hide Preserved, PLAIN_KEYS, ARCH_KEYS;
  }

  /** Fields outside the lists are those of the scrape. */
  lemma OtherFieldsStay(prior: Fields, scraped: Fields, key: string)
    requires key !in PLAIN_KEYS && key !in ARCH_KEYS && key != CONTEXT
    ensures Get(Preserved(prior, scraped), key) == Get(scraped, key)
  {
    PreservedGet(prior, scraped, key);
  }

  lemma PreservedGet(prior: Fields, scraped: Fields, key: string)
    ensures Get(Preserved(prior, scraped), key) == if Restores(prior, scraped, key) then Get(prior, key) else Get(scraped, key)
  {
  }

  /** No architecture value is lost or overwritten. */
  lemma ArchitectureSurvives(prior: Fields, scraped: Fields, key: string)
    requires key in ARCH_KEYS && key !in PLAIN_KEYS
    ensures Get(scraped, key) != Null ==> Get(Preserved(prior, scraped), key) == Get(scraped, key)
    ensures Get(scraped, key) == Null ==> Get(Preserved(prior, scraped), key) == Get(prior, key)
  {
    PreservedGet(prior, scraped, key);
  }

  /** A second pass against the same old entry restores nothing and changes nothing. */
  lemma PreservedTwice(prior: Fields, scraped: Fields, key: string)
    ensures !Restores(prior, Preserved(prior, scraped), key)
  {
    PreservedGet(prior, scraped, key);
    PreservedGet(prior, scraped, HEADS);
    PreservedGet(prior, scraped, CONTEXT);
    KeysApart();
    hide Preserved;
  }

  lemma KeysApart()
    ensures HEADS in ARCH_KEYS && HEADS !in PLAIN_KEYS && CONTEXT !in PLAIN_KEYS && CONTEXT !in ARCH_KEYS
  {
    assert ARCH_KEYS[1] == HEADS;
    assert forall i :: 0 <= i < |PLAIN_KEYS| ==> PLAIN_KEYS[i] != HEADS && PLAIN_KEYS[i] != CONTEXT;
    assert forall i :: 0 <= i < |ARCH_KEYS| ==> ARCH_KEYS[i] != CONTEXT;
  }

  lemma NothingToRestore(prior: Fields, scraped: Fields)
    requires forall k :: !Restores(prior, scraped, k)
    ensures Preserved(prior, scraped) == scraped
  {
  }

  /** What has been restored against one old entry stays restored against it, whatever is restored later. */
  lemma RestoredStaysRestored(a: Fields, b: Fields, scraped: Fields, key: string)
    requires forall k :: !Restores(a, scraped, k)
    ensures !Restores(a, Preserved(b, scraped), key)
  {
    PreservedGet(b, scraped, key);
    PreservedGet(b, scraped, HEADS);
    PreservedGet(b, scraped, CONTEXT);
    KeysApart();
    assert !Restores(a, scraped, key) && !Restores(a, scraped, HEADS) && !Restores(a, scraped, CONTEXT);
    hide Preserved;
  }

  // ----- the whole catalogue, on values

  datatype Entry = Entry(name: string, fields: Fields)

  /** Position of the last entry with that name, the one a name index holds, or the length of the list. */
  function Find(es: seq<Entry>, name: string): (i: nat)
    ensures i <= |es| && (i < |es| ==> es[i].name == name)
    ensures i < |es| ==> forall k :: i < k < |es| ==> es[k].name != name
    ensures i == |es| ==> forall k :: 0 <= k < |es| ==> es[k].name != name
  {
    if es == [] then 0
    else if es[|es| - 1].name == name then |es| - 1
    else
      var i := Find(es[..|es| - 1], name);
      if i < |es| - 1 then i else |es|
  }

  /** Merges one old entry: into its namesake, or appended, or ignored when it has no name. */
  function Absorb(es: seq<Entry>, o: Entry): seq<Entry> {
    var i := Find(es, o.name);
    if i < |es| then es[i := Entry(es[i].name, Preserved(o.fields, es[i].fields))]
    else if o.name != "" then es + [o]
    else es
  }

  function MergeAll(es: seq<Entry>, existing: seq<Entry>): seq<Entry> {
    if existing == [] then es
    else Absorb(MergeAll(es, existing[..|existing| - 1]), existing[|existing| - 1])
  }

  ghost function NamesOf(es: seq<Entry>): set<string> {
    set i | 0 <= i < |es| :: es[i].name
  }

  ghost predicate DistinctNames(es: seq<Entry>) {
    forall i, j :: 0 <= i < j < |es| ==> es[i].name != es[j].name
  }

  lemma NamedIn(es: seq<Entry>, name: string)
    ensures name in NamesOf(es) <==> Find(es, name) < |es|
  {
  }

  lemma AbsorbNames(es: seq<Entry>, o: Entry)
    ensures DistinctNames(Absorb(es, o)) <==> DistinctNames(es)
    ensures NamesOf(Absorb(es, o)) == NamesOf(es) + if o.name == "" then {} else {o.name}
    ensures |es| <= |Absorb(es, o)| && forall i :: 0 <= i < |es| ==> Absorb(es, o)[i].name == es[i].name
  {
    hide Preserved;
    var r, i := Absorb(es, o), Find(es, o.name);
    NamedIn(es, o.name);
    if i < |es| {
      assert forall k :: 0 <= k < |es| ==> r[k].name == es[k].name;
      assert es[i].name in NamesOf(es);
    } else if o.name != "" {
      assert r[|es|].name in NamesOf(r);
      assert forall k :: 0 <= k < |es| ==> r[k] == es[k];
    }
  }

  /**
   The names are exactly the fresh ones and the non-empty existing ones, and the merge
   repeats none: they are distinct exactly when the fresh ones are.
   */
  lemma {:induction false} MergedNames(es: seq<Entry>, existing: seq<Entry>)
    ensures DistinctNames(MergeAll(es, existing)) <==> DistinctNames(es)
    ensures NamesOf(MergeAll(es, existing)) == NamesOf(es) + (NamesOf(existing) - {""})
    ensures |es| <= |MergeAll(es, existing)|
    ensures forall i :: 0 <= i < |es| ==> MergeAll(es, existing)[i].name == es[i].name
    decreases |existing|
  {
    hide Absorb;
    if existing != [] {
      var n := |existing| - 1;
      var front, o := existing[..n], existing[n];
      MergedNames(es, front);
      AbsorbNames(MergeAll(es, front), o);
      NamesSnoc(existing);
      hide NamesOf, DistinctNames;
    }
  }

  lemma NamesSnoc(es: seq<Entry>)
    requires es != []
    ensures NamesOf(es) == NamesOf(es[..|es| - 1]) + {es[|es| - 1].name}
  {
    var n := |es| - 1;
    assert es[n].name in NamesOf(es);
    forall x | x in NamesOf(es[..n]) ensures x in NamesOf(es) {
      var i :| 0 <= i < n && es[..n][i].name == x;
      assert es[i].name == x;
    }
  }

  // ----- merging again changes nothing

  /** The old entry has nothing left to contribute. */
  ghost predicate Settled(es: seq<Entry>, o: Entry) {
    var i := Find(es, o.name);
    if i < |es| then forall k :: !Restores(o.fields, es[i].fields, k) else o.name == ""
  }

  lemma SettledIsIdle(es: seq<Entry>, o: Entry)
    requires Settled(es, o)
    ensures Absorb(es, o) == es
  {
    var i := Find(es, o.name);
    if i < |es| {
      NothingToRestore(o.fields, es[i].fields);
    }
  }

  lemma FindAfterUpdate(es: seq<Entry>, i: nat, f: Fields, name: string)
    requires i < |es|
    ensures Find(es[i := Entry(es[i].name, f)], name) == Find(es, name)
  {
    var r := es[i := Entry(es[i].name, f)];
    assert forall k :: 0 <= k < |es| ==> r[k].name == es[k].name;
  }

  lemma FindAfterAppend(es: seq<Entry>, o: Entry, name: string)
    ensures Find(es + [o], name) ==
      if o.name == name then |es| else if Find(es, name) < |es| then Find(es, name) else |es| + 1
  {
    var r := es + [o];
    assert forall k :: 0 <= k < |es| ==> r[k] == es[k];
    assert r[|es|] == o;
  }

  lemma AbsorbSettles(es: seq<Entry>, o: Entry)
    ensures Settled(Absorb(es, o), o)
  {
    hide Preserved;
    var i := Find(es, o.name);
    if i < |es| {
      FindAfterUpdate(es, i, Preserved(o.fields, es[i].fields), o.name);
      forall k ensures !Restores(o.fields, Preserved(o.fields, es[i].fields), k) {
        PreservedTwice(o.fields, es[i].fields, k);
      }
    } else if o.name != "" {
      FindAfterAppend(es, o, o.name);
      assert (es + [o])[|es|] == o;
    }
  }

  lemma AbsorbKeepsSettled(es: seq<Entry>, o: Entry, p: Entry)
    requires Settled(es, o)
    ensures Settled(Absorb(es, p), o)
  {
    hide Preserved, Restores;
    var i, j := Find(es, o.name), Find(es, p.name);
    if j < |es| {
      FindAfterUpdate(es, j, Preserved(p.fields, es[j].fields), o.name);
      if i == j {
        forall k ensures !Restores(o.fields, Preserved(p.fields, es[i].fields), k) {
          RestoredStaysRestored(o.fields, p.fields, es[i].fields, k);
        }
      }
    } else if p.name != "" {
      FindAfterAppend(es, p, o.name);
    }
  }

  lemma {:induction false} MergedIsSettled(es: seq<Entry>, existing: seq<Entry>, k: nat)
    requires k < |existing|
    ensures Settled(MergeAll(es, existing), existing[k])
    decreases |existing|
  {
    hide Absorb, Settled;
    var n := |existing| - 1;
    var front := existing[..n];
    if k == n {
      AbsorbSettles(MergeAll(es, front), existing[n]);
    } else {
      MergedIsSettled(es, front, k);
      AbsorbKeepsSettled(MergeAll(es, front), existing[k], existing[n]);
    }
  }

  lemma {:induction false} SettledAllIsIdle(es: seq<Entry>, existing: seq<Entry>)
    requires forall k :: 0 <= k < |existing| ==> Settled(es, existing[k])
    ensures MergeAll(es, existing) == es
    decreases |existing|
  {
    hide Absorb, Settled;
    if existing != [] {
      SettledAllIsIdle(es, existing[..|existing| - 1]);
      SettledIsIdle(es, existing[|existing| - 1]);
    }
  }

  /** A second merge with the same catalogue restores and adds nothing. */
  lemma MergeIdempotent(es: seq<Entry>, existing: seq<Entry>)
    ensures MergeAll(MergeAll(es, existing), existing) == MergeAll(es, existing)
  {
    forall k | 0 <= k < |existing| ensures Settled(MergeAll(es, existing), existing[k]) {
      MergedIsSettled(es, existing, k);
    }
    SettledAllIsIdle(MergeAll(es, existing), existing);
  }

  /** An architecture value of a fresh entry is never changed by the merge. */
  lemma {:induction false} FreshArchitectureStays(es: seq<Entry>, existing: seq<Entry>, i: nat, key: string)
    requires i < |es| && key in ARCH_KEYS && Get(es[i].fields, key) != Null
    ensures i < |MergeAll(es, existing)| && Get(MergeAll(es, existing)[i].fields, key) == Get(es[i].fields, key)
    decreases |existing|
  {
    KeyListsAreGood();
    hide Preserved;
    if existing != [] {
      var n := |existing| - 1;
      FreshArchitectureStays(es, existing[..n], i, key);
      var before := MergeAll(es, existing[..n]);
      ArchitectureSurvives(existing[n].fields, before[i].fields, key);
    }
  }

  /** An architecture value known for a named model is never lost by the merge. */
  lemma ArchitectureIsNotLost(es: seq<Entry>, existing: seq<Entry>, k: nat, key: string)
    requires k < |existing| && existing[k].name != "" && key in ARCH_KEYS && Get(existing[k].fields, key) != Null
    ensures
      var merged := MergeAll(es, existing);
      var at := Find(merged, existing[k].name);
      at < |merged| && Get(merged[at].fields, key) != Null
  {
    KeyListsAreGood();
    MergedIsSettled(es, existing, k);
    hide MergeAll;
    var merged := MergeAll(es, existing);
    var at := Find(merged, existing[k].name);
    assert !Restores(existing[k].fields, merged[at].fields, key);
  }

  // ----- the merge on shared objects

  /** A catalogue entry that the result list and the name index share. */
  class Model {
    const name: string
    var fields: Fields

    constructor (name: string, fields: Fields)
      ensures this.name == name && this.fields == fields
    {
      this.name, this.fields := name, fields;
    }
  }

  ghost function View(m: Model): Entry
    reads m
  {
    Entry(m.name, m.fields)
  }

  ghost function Views(ms: seq<Model>): (r: seq<Entry>)
    reads ms
    ensures |r| == |ms| && forall i :: 0 <= i < |ms| ==> r[i] == View(ms[i])
  {
    if ms == [] then [] else Views(ms[..|ms| - 1]) + [View(ms[|ms| - 1])]
  }

  /** The scraped fields with only the given keys looked at so far. */
  ghost function PreservedOn(prior: Fields, scraped: Fields, keys: set<string>): Fields {
    map k | k in scraped.Keys + prior.Keys && (k in scraped || (k in keys && Restores(prior, scraped, k))) ::
      if k in keys && Restores(prior, scraped, k) then Get(prior, k) else Get(scraped, k)
  }

  ghost predicate Lists(restored: seq<string>, prior: Fields, scraped: Fields, keys: set<string>) {
    forall k :: k in restored <==> k in keys && Restores(prior, scraped, k)
  }

  /** Looks at one more key: it is taken over exactly when it is to be restored. */
  lemma PreserveKey(prior: Fields, scraped: Fields, keys: set<string>, key: string)
    requires key !in keys
    ensures Get(PreservedOn(prior, scraped, keys), key) == Get(scraped, key)
    ensures Restores(prior, scraped, key) ==>
      key in prior && PreservedOn(prior, scraped, keys + {key}) == PreservedOn(prior, scraped, keys)[key := prior[key]]
    ensures !Restores(prior, scraped, key) ==>
      PreservedOn(prior, scraped, keys + {key}) == PreservedOn(prior, scraped, keys)
  {
    KeysApart();
  }

  ghost function Elements(keys: seq<string>): set<string> {
    set k | k in keys
  }

  ghost predicate Repeats(keys: seq<string>) {
    exists i, j :: 0 <= i < j < |keys| && keys[i] == keys[j]
  }

  /** Restores a list of keys, all judged by the same test. */
  method PreserveKeys(prior: Model, target: Model, keys: seq<string>, arch: bool, restored0: seq<string>,
                      ghost scraped: Fields, ghost before: set<string>)
    returns (restored: seq<string>)
    requires prior != target && !Repeats(keys) && Elements(keys) !! before
    requires forall k :: k in keys ==>
      Restores(prior.fields, scraped, k) ==
        if arch then RestoresArch(prior.fields, scraped, k) else RestoresPlain(prior.fields, scraped, k)
    requires target.fields == PreservedOn(prior.fields, scraped, before)
    requires Lists(restored0, prior.fields, scraped, before)
    modifies target`fields
    ensures target.fields == PreservedOn(prior.fields, scraped, before + Elements(keys))
    ensures Lists(restored, prior.fields, scraped, before + Elements(keys))
  {
    hide Restores;
    restored := restored0;
    assert before + Elements(keys[..0]) == before;
    for i := 0 to |keys|
      invariant target.fields == PreservedOn(prior.fields, scraped, before + Elements(keys[..i]))
      invariant Lists(restored, prior.fields, scraped, before + Elements(keys[..i]))
    {
      var key := keys[i];
      ghost var done := before + Elements(keys[..i]);
      assert key in keys && key !in done;
      PreserveKey(prior.fields, scraped, done, key);
      assert before + Elements(keys[..i + 1]) == done + {key} by {
        assert keys[..i + 1] == keys[..i] + [key];
      }
      hide PreservedOn;
      var was, now := Get(prior.fields, key), Get(target.fields, key);
      if (arch && was != Null && now == Null) || (!arch && Truthy(was) && !Truthy(now)) {
        target.fields := target.fields[key := prior.fields[key]];
        restored := restored + [key];
      }
    }
    assert keys[..|keys|] == keys;
  }

  lemma KeyListsAreGood()
    ensures !Repeats(PLAIN_KEYS) && !Repeats(ARCH_KEYS) && Elements(PLAIN_KEYS) !! Elements(ARCH_KEYS)
    ensures forall k :: k in ARCH_KEYS ==> k !in PLAIN_KEYS
  {
    assert forall i :: 0 <= i < |ARCH_KEYS| ==> ARCH_KEYS[i] !in PLAIN_KEYS;
  }

  lemma AllKeysDone(prior: Fields, scraped: Fields)
    ensures PreservedOn(prior, scraped, Elements(PLAIN_KEYS) + Elements(ARCH_KEYS) + {CONTEXT}) == Preserved(prior, scraped)
  {
    var keys := Elements(PLAIN_KEYS) + Elements(ARCH_KEYS) + {CONTEXT};
    assert forall k :: k !in keys ==> !Restores(prior, scraped, k);
  }

  /** Copies back what the scrape dropped, in place, and lists the restored keys. */
  method PreserveExistingMetadata(prior: Model, target: Model) returns (restored: seq<string>)
    requires prior != target
    modifies target`fields
    ensures target.fields == Preserved(prior.fields, old(target.fields))
    ensures forall k :: k in restored <==> Restores(prior.fields, old(target.fields), k)
  {
    ghost var scraped := target.fields;
    KeyListsAreGood();
    KeysApart();
    assert PreservedOn(prior.fields, scraped, {}) == scraped;
    restored := PreserveKeys(prior, target, PLAIN_KEYS, false, [], scraped, {});
    assert {} + Elements(PLAIN_KEYS) == Elements(PLAIN_KEYS);
    restored := PreserveKeys(prior, target, ARCH_KEYS, true, restored, scraped, Elements(PLAIN_KEYS));
    ghost var done := Elements(PLAIN_KEYS) + Elements(ARCH_KEYS);
    PreserveKey(prior.fields, scraped, done, CONTEXT);
    AllKeysDone(prior.fields, scraped);
    assert HEADS in restored <==> RestoresArch(prior.fields, scraped, HEADS);
    assert Restores(prior.fields, scraped, CONTEXT) <==> RestoresContext(prior.fields, scraped);
    OnlyListedKeys(prior.fields, scraped);
    hide PreservedOn, Preserved, Restores;
    if Get(target.fields, CONTEXT) == DEFAULT_CONTEXT_LENGTH
      && Get(prior.fields, CONTEXT) != Null && Get(prior.fields, CONTEXT) != DEFAULT_CONTEXT_LENGTH
      && HEADS in restored
    {
      target.fields := target.fields[CONTEXT := prior.fields[CONTEXT]];
      restored := restored + [CONTEXT];
    }
  }

  lemma OnlyListedKeys(prior: Fields, scraped: Fields)
    ensures forall k :: Restores(prior, scraped, k) ==> k in Elements(PLAIN_KEYS) + Elements(ARCH_KEYS) + {CONTEXT}
  {
  }

  ghost predicate DistinctObjects(ms: seq<Model>) {
    forall i, j :: 0 <= i < j < |ms| ==> ms[i] != ms[j]
  }

  lemma DistinctSnoc(ms: seq<Model>, m: Model)
    ensures DistinctObjects(ms + [m]) <==> DistinctObjects(ms) && m !in ms
  {
    var all := ms + [m];
    assert forall i :: 0 <= i < |ms| ==> all[i] == ms[i];
    assert all[|ms|] == m;
  }

  /** Nothing behind position `i` has that name. */
  ghost predicate IsLast(ms: seq<Model>, i: int, name: string) {
    0 <= i < |ms| && ms[i].name == name && forall k :: i < k < |ms| ==> ms[k].name != name
  }

  /** The index holds the last object of each name in the list. */
  ghost predicate Agree(byName: map<string, Model>, ms: seq<Model>) {
    && (forall i :: 0 <= i < |ms| ==> ms[i].name in byName)
    && (forall n :: n in byName ==> exists i :: IsLast(ms, i, n) && ms[i] == byName[n])
  }

  lemma AgreeExtends(byName: map<string, Model>, ms: seq<Model>, m: Model)
    requires Agree(byName, ms)
    ensures Agree(byName[m.name := m], ms + [m])
  {
    var index, all := byName[m.name := m], ms + [m];
    forall n | n in index ensures exists i :: IsLast(all, i, n) && all[i] == index[n] {
      if n == m.name {
        assert IsLast(all, |ms|, n);
      } else {
        var i :| IsLast(ms, i, n) && ms[i] == byName[n];
        assert IsLast(all, i, n);
      }
    }
  }

  method IndexByName(ms: seq<Model>) returns (byName: map<string, Model>)
    ensures Agree(byName, ms)
  {
    hide Agree;
    byName := map[];
    AgreeEmpty();
    for i := 0 to |ms|
      invariant Agree(byName, ms[..i])
    {
      AgreeExtends(byName, ms[..i], ms[i]);
      byName := byName[ms[i].name := ms[i]];
      assert ms[..i + 1] == ms[..i] + [ms[i]];
    }
    assert ms[..|ms|] == ms;
  }

  lemma AgreeEmpty()
    ensures Agree(map[], [])
  {
  }

  lemma AgreeGives(byName: map<string, Model>, ms: seq<Model>, name: string) returns (i: nat)
    requires Agree(byName, ms) && name in byName
    ensures IsLast(ms, i, name) && ms[i] == byName[name]
  {
    var j :| IsLast(ms, j, name) && ms[j] == byName[name];
    i := j;
  }

  lemma AgreeHas(byName: map<string, Model>, ms: seq<Model>, i: nat)
    requires Agree(byName, ms) && i < |ms|
    ensures ms[i].name in byName
  {
  }

  lemma FindIsLast(ms: seq<Model>, i: nat, name: string)
    requires IsLast(ms, i, name)
    ensures Find(Views(ms), name) == i
  {
    hide Views;
    assert Views(ms)[i].name == name;
    assert forall k :: 0 <= k < |ms| ==> Views(ms)[k].name == ms[k].name;
  }

  /** Under an agreeing index, looking a name up finds the position of the object. */
  lemma AgreeFinds(byName: map<string, Model>, ms: seq<Model>, name: string)
    requires Agree(byName, ms) && DistinctObjects(ms)
    ensures name in byName <==> Find(Views(ms), name) < |ms|
    ensures name in byName ==> ms[Find(Views(ms), name)] == byName[name]
    ensures name in byName ==> forall k :: 0 <= k < |ms| && k != Find(Views(ms), name) ==> ms[k] != byName[name]
  {
    hide Agree, Views, IsLast;
    var at := Find(Views(ms), name);
    if name in byName {
      var i := AgreeGives(byName, ms, name);
      FindIsLast(ms, i, name);
    } else if at < |ms| {
      assert Views(ms)[at].name == ms[at].name;
      AgreeHas(byName, ms, at);
    }
  }

  lemma RestoresHeads(prior: Fields, scraped: Fields)
    ensures Restores(prior, scraped, HEADS) <==> RestoresArch(prior, scraped, HEADS)
  {
    KeysApart();
  }

  datatype Effect = Updated(heads: bool) | Retained | Ignored

  /** What merging one old entry counts as. */
  ghost function EffectOf(es: seq<Entry>, o: Entry): Effect {
    var i := Find(es, o.name);
    if i < |es| then Updated(RestoresArch(o.fields, es[i].fields, HEADS))
    else if o.name != "" then Retained
    else Ignored
  }

  /** How many of the existing entries have an effect of the wanted kind, in the order they are merged. */
  ghost function CountEffects(es: seq<Entry>, existing: seq<Entry>, wanted: Effect -> bool): nat {
    if existing == [] then 0
    else
      var n := |existing| - 1;
      CountEffects(es, existing[..n], wanted)
      + if wanted(EffectOf(MergeAll(es, existing[..n]), existing[n])) then 1 else 0
  }

  lemma CountSnoc(es: seq<Entry>, existing: seq<Entry>, i: nat, wanted: Effect -> bool)
    requires i < |existing|
    ensures CountEffects(es, existing[..i + 1], wanted) ==
      CountEffects(es, existing[..i], wanted) + if wanted(EffectOf(MergeAll(es, existing[..i]), existing[i])) then 1 else 0
  {
    assert existing[..i + 1][..i] == existing[..i];
  }

  predicate IsUpdate(e: Effect) { e.Updated? }

  predicate IsRetention(e: Effect) { e.Retained? }

  predicate RestoresAnyHeads(e: Effect) { e.Updated? && e.heads }

  /** Merges one old entry through the index; the change shows in the list, which shares its objects. */
  method MergeOne(prior: Model, ms: seq<Model>, byName: map<string, Model>)
    returns (merged: seq<Model>, index: map<string, Model>, effect: Effect)
    requires Agree(byName, ms) && DistinctObjects(ms + [prior])
    modifies ms
    ensures Agree(index, merged) && DistinctObjects(merged)
    ensures Views(merged) == Absorb(old(Views(ms)), View(prior))
    ensures merged == if effect.Retained? then ms + [prior] else ms
    ensures effect == EffectOf(old(Views(ms)), View(prior))
  {
    hide Preserved, Restores, Views, Agree, RestoresArch, DistinctObjects;
    DistinctSnoc(ms, prior);
    merged, index, effect := ms, byName, Ignored;
    ghost var before := Views(ms);
    AgreeFinds(byName, ms, prior.name);
    if prior.name in byName {
      var target := byName[prior.name];
      ghost var at := Find(before, prior.name);
      var restored := PreserveExistingMetadata(prior, target);
      RestoresHeads(prior.fields, old(target.fields));
      effect := Updated(HEADS in restored);
      assert Views(ms) == before[at := Entry(before[at].name, Preserved(prior.fields, before[at].fields))];
    } else if prior.name != "" {
      merged := ms + [prior];
      index := byName[prior.name := prior];
      AgreeExtends(byName, ms, prior);
      effect := Retained;
      assert merged[..|ms|] == ms;
      assert Views(merged) == before + [View(prior)];
    }
  }

  lemma NotYetMerged(results: seq<Model>, existing: seq<Model>, i: nat, merged: seq<Model>)
    requires DistinctObjects(results + existing) && i <= |existing|
    requires forall m :: m in merged ==> m in results || m in existing[..i]
    ensures forall k :: i <= k < |existing| ==> existing[k] !in merged
  {
    var all := results + existing;
    assert forall k :: 0 <= k < |results| ==> all[k] == results[k];
    assert forall k :: 0 <= k < |existing| ==> all[|results| + k] == existing[k];
  }

  lemma DistinctPart(a: seq<Model>, b: seq<Model>)
    requires DistinctObjects(a + b)
    ensures DistinctObjects(a)
  {
    assert forall i :: 0 <= i < |a| ==> (a + b)[i] == a[i];
  }

  /**
   Merges the existing catalogue into the results. The list and the index share their
   objects throughout, so restoring through the index shows in the list.
   */
  method MergeCatalogue(results: seq<Model>, existing: seq<Model>)
    returns (merged: seq<Model>, updated: nat, retained: nat, headsRestored: nat)
    requires DistinctObjects(results + existing)
    modifies results, existing
    ensures Views(merged) == MergeAll(old(Views(results)), old(Views(existing)))
    ensures results <= merged && |merged| == |results| + retained
    ensures updated == CountEffects(old(Views(results)), old(Views(existing)), IsUpdate)
    ensures retained == CountEffects(old(Views(results)), old(Views(existing)), IsRetention)
    ensures headsRestored == CountEffects(old(Views(results)), old(Views(existing)), RestoresAnyHeads)
  {
    hide Absorb, Agree, MergeAll, DistinctObjects, Views, EffectOf, CountEffects;
    var byName := IndexByName(results);
    merged, updated, retained, headsRestored := results, 0, 0, 0;
    ghost var was, start := Views(existing), Views(results);
    MergeNone(start, was);
    DistinctPart(results, existing);
    for i := 0 to |existing|
      invariant Agree(byName, merged) && DistinctObjects(merged) && results <= merged && |merged| == |results| + retained
      invariant updated == CountEffects(start, was[..i], IsUpdate)
      invariant retained == CountEffects(start, was[..i], IsRetention)
      invariant headsRestored == CountEffects(start, was[..i], RestoresAnyHeads)
      invariant forall m :: m in merged ==> m in results || m in existing[..i]
      invariant forall k :: i <= k < |existing| ==> View(existing[k]) == was[k]
      invariant Views(merged) == MergeAll(start, was[..i])
    {
      NotYetMerged(results, existing, i, merged);
      DistinctSnoc(merged, existing[i]);
      MergeSnoc(start, was, i);
      CountSnoc(start, was, i, IsUpdate);
      CountSnoc(start, was, i, IsRetention);
      CountSnoc(start, was, i, RestoresAnyHeads);
      forall j | 0 <= j < |merged| ensures merged[j] in results || merged[j] in existing {
        assert merged[j] in merged;
      }
      assert existing[..i + 1] == existing[..i] + [existing[i]];
      var effect;
      merged, byName, effect := MergeOne(existing[i], merged, byName);
      match effect {
        case Updated(heads) =>
          updated := updated + 1;
          headsRestored := headsRestored + if heads then 1 else 0;
        case Retained =>
          retained := retained + 1;
        case Ignored =>
      }
    }
    assert was[..|existing|] == was;
  }

  lemma MergeNone(es: seq<Entry>, existing: seq<Entry>)
    ensures MergeAll(es, existing[..0]) == es
    ensures forall wanted :: CountEffects(es, existing[..0], wanted) == 0
  {
  }

  lemma MergeSnoc(es: seq<Entry>, existing: seq<Entry>, i: nat)
    requires i < |existing|
    ensures MergeAll(es, existing[..i + 1]) == Absorb(MergeAll(es, existing[..i]), existing[i])
  {
    assert existing[..i + 1][..i] == existing[..i];
  }
}
