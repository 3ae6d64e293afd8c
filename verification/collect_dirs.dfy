/**
 The bounded breadth-first walk that looks for resource directories below a store root.
 Links may lead back up, so the same directory can be queued many times and the paths
 below a link are unboundedly many.
 */
module CollectDirs {

  datatype Kind = Directory | SymbolicLink | Other

  datatype DirEntry = DirEntry(path: string, kind: Kind)

  /** The result of listing a directory; `path` is already joined with the directory. */
  datatype Listing = Unreadable | Entries(entries: seq<DirEntry>)

  type FileSystem = string -> Listing

  /** The entries that are queued: directories and links, in listing order. */
  function Followed(entries: seq<DirEntry>): seq<string> {
    if entries == [] then []
    else
      var before := Followed(entries[..|entries| - 1]);
      var last := entries[|entries| - 1];
      if last.kind == Other then before else before + [last.path]
  }

  function Below(fs: FileSystem, dir: string): seq<string> {
    match fs(dir)
    case Unreadable => []
    case Entries(es) => Followed(es)
  }

  /** A readable directory lists the path as a directory or as a link. */
  ghost predicate LeadsTo(fs: FileSystem, dir: string, path: string) {
    fs(dir).Entries? && (DirEntry(path, Directory) in fs(dir).entries || DirEntry(path, SymbolicLink) in fs(dir).entries)
  }

  lemma {:induction false} FollowedAre(entries: seq<DirEntry>, path: string)
    ensures path in Followed(entries) <==> DirEntry(path, Directory) in entries || DirEntry(path, SymbolicLink) in entries
  {
    if entries != [] {
      var front, last := entries[..|entries| - 1], entries[|entries| - 1];
      FollowedAre(front, path);
      assert entries == front + [last];
    }
  }

  /** The walk goes on exactly to what a directory leads to. */
  lemma BelowAre(fs: FileSystem, dir: string, path: string)
    ensures path in Below(fs, dir) <==> LeadsTo(fs, dir, path)
  {
    if fs(dir).Entries? {
      FollowedAre(fs(dir).entries, path);
    }
  }

  // ----- distance

  /** What can be reached from the root in exactly `n` steps. */
  ghost function Level(fs: FileSystem, root: string, n: nat): set<string> {
    if n == 0 then {root}
    else set d, i | d in Level(fs, root, n - 1) && 0 <= i < |Below(fs, d)| :: Below(fs, d)[i]
  }

  lemma LevelStep(fs: FileSystem, root: string, n: nat, d: string, c: string)
    requires d in Level(fs, root, n) && c in Below(fs, d)
    ensures c in Level(fs, root, n + 1)
  {
    var i :| 0 <= i < |Below(fs, d)| && Below(fs, d)[i] == c;
  }

  lemma LevelParent(fs: FileSystem, root: string, n: nat, c: string) returns (d: string)
    requires n > 0 && c in Level(fs, root, n)
    ensures d in Level(fs, root, n - 1) && c in Below(fs, d)
  {
    var e, i :| e in Level(fs, root, n - 1) && 0 <= i < |Below(fs, e)| && Below(fs, e)[i] == c;
    d := e;
  }

  lemma LevelZero(fs: FileSystem, root: string)
    ensures Level(fs, root, 0) == {root}
  {
  }

  /** Everything within `n` steps. */
  ghost function Within(fs: FileSystem, root: string, n: nat): set<string> {
    if n == 0 then {root} else Within(fs, root, n - 1) + Level(fs, root, n)
  }

  lemma {:induction false} WithinIs(fs: FileSystem, root: string, n: nat, x: string)
    ensures x in Within(fs, root, n) <==> exists k :: 0 <= k <= n && x in Level(fs, root, k)
  {
    LevelZero(fs, root);
    hide Level;
    if n > 0 {
      WithinIs(fs, root, n - 1, x);
      assert Within(fs, root, n) == Within(fs, root, n - 1) + Level(fs, root, n);
      if k :| 0 <= k <= n && x in Level(fs, root, k) {
        assert k == n || k <= n - 1;
      }
    } else {
      assert Within(fs, root, 0) == Level(fs, root, 0);
    }
  }

  /** `n` is the distance of `x`: reachable in `n` steps and in no fewer. */
  ghost predicate IsDistance(fs: FileSystem, root: string, x: string, n: nat) {
    x in Level(fs, root, n) && forall k :: 0 <= k < n ==> x !in Level(fs, root, k)
  }

  // ----- the walk

  datatype Item = Item(dir: string, depth: nat)

  ghost function Depth(maxDepth: int): nat { if maxDepth < 0 then 0 else maxDepth }

  ghost predicate Distinct(dirs: seq<string>) {
    forall i, j :: 0 <= i < j < |dirs| ==> dirs[i] != dirs[j]
  }

  /** Queued depths rise by at most one from front to back. */
  ghost predicate Layered(queue: seq<Item>) {
    forall i, j :: 0 <= i < j < |queue| ==> queue[i].depth <= queue[j].depth <= queue[0].depth + 1
  }

  ghost predicate Sound(fs: FileSystem, root: string, max: nat, queue: seq<Item>) {
    forall i :: 0 <= i < |queue| ==> queue[i].depth <= max && queue[i].dir in Level(fs, root, queue[i].depth)
  }

  /** Visited directories carry their distances, in order. */
  ghost predicate Visited(fs: FileSystem, root: string, max: nat, dirs: seq<string>, depths: seq<nat>) {
    && |depths| == |dirs|
    && (forall i :: 0 <= i < |dirs| ==> depths[i] <= max && IsDistance(fs, root, dirs[i], depths[i]))
    && (forall i, j :: 0 <= i < j < |dirs| ==> depths[i] <= depths[j])
  }

  /** The children of a visited directory above the limit are visited or queued one deeper. */
  ghost predicate Frontier(fs: FileSystem, max: nat, dirs: seq<string>, depths: seq<nat>, queue: seq<Item>)
    requires |depths| == |dirs|
  {
    forall i, c :: 0 <= i < |dirs| && depths[i] < max && c in Below(fs, dirs[i]) ==>
      c in dirs || Item(c, depths[i] + 1) in queue
  }

  /** Anything within `n` steps is visited, or something no deeper than `n` is still queued. */
  lemma {:induction false} Progress(fs: FileSystem, root: string, max: nat, dirs: seq<string>, depths: seq<nat>,
                                    queue: seq<Item>, x: string, n: nat)
    requires Visited(fs, root, max, dirs, depths) && Frontier(fs, max, dirs, depths, queue)
    requires root in dirs || Item(root, 0) in queue
    requires n <= max && x in Level(fs, root, n)
    ensures x in dirs || exists i :: 0 <= i < |queue| && queue[i].depth <= n
    decreases n
  {
    LevelZero(fs, root);
    hide Level;
    if n > 0 {
      var d := LevelParent(fs, root, n, x);
      Progress(fs, root, max, dirs, depths, queue, d, n - 1);
      if d in dirs {
        var i :| 0 <= i < |dirs| && dirs[i] == d;
        assert depths[i] <= n - 1;
        assert x in dirs || Item(x, depths[i] + 1) in queue;
      }
    }
  }

  /** The front of the queue is at its true distance unless it was visited before. */
  lemma FrontIsNearest(fs: FileSystem, root: string, max: nat, dirs: seq<string>, depths: seq<nat>, queue: seq<Item>)
    requires Visited(fs, root, max, dirs, depths) && Frontier(fs, max, dirs, depths, queue)
    requires root in dirs || Item(root, 0) in queue
    requires queue != [] && Layered(queue) && Sound(fs, root, max, queue) && queue[0].dir !in dirs
    ensures IsDistance(fs, root, queue[0].dir, queue[0].depth)
  {
    hide Level;
    var x, d := queue[0].dir, queue[0].depth;
    forall k | 0 <= k < d ensures x !in Level(fs, root, k) {
      if x in Level(fs, root, k) {
        Progress(fs, root, max, dirs, depths, queue, x, k);
      }
    }
  }

  method Push(queue: seq<Item>, entries: seq<DirEntry>, depth: nat) returns (r: seq<Item>)
    ensures r == queue + seq(|Followed(entries)|, i requires 0 <= i < |Followed(entries)| => Item(Followed(entries)[i], depth))
  {
    r := queue;
    for i := 0 to |entries|
      invariant r == queue + seq(|Followed(entries[..i])|,
                                 k requires 0 <= k < |Followed(entries[..i])| => Item(Followed(entries[..i])[k], depth))
    {
      assert entries[..i + 1][..i] == entries[..i];
      if entries[i].kind != Other {
        r := r + [Item(entries[i].path, depth)];
      }
    }
    assert entries[..|entries|] == entries;
  }

  ghost predicate Walk(fs: FileSystem, root: string, max: nat, dirs: seq<string>, depths: seq<nat>, queue: seq<Item>) {
    && Distinct(dirs) && Visited(fs, root, max, dirs, depths)
    && Layered(queue) && Sound(fs, root, max, queue)
    && (forall i, j :: 0 <= i < |depths| && 0 <= j < |queue| ==> depths[i] <= queue[j].depth)
    && (root in dirs || Item(root, 0) in queue)
    && Frontier(fs, max, dirs, depths, queue)
  }

  lemma WalkStarts(fs: FileSystem, root: string, max: nat)
    ensures Walk(fs, root, max, [], [], [Item(root, 0)])
  {
    LevelZero(fs, root);
  }

  /** An item visited before is dropped. */
  lemma SkipKeeps(fs: FileSystem, root: string, max: nat, dirs: seq<string>, depths: seq<nat>, queue: seq<Item>)
    requires Walk(fs, root, max, dirs, depths, queue) && queue != [] && queue[0].dir in dirs
    ensures Walk(fs, root, max, dirs, depths, queue[1..])
  {
    hide Level;
    assert queue == [queue[0]] + queue[1..];
  }

  /** What is queued for a directory just visited: its children, unless the limit is reached. */
  ghost function Children(fs: FileSystem, max: nat, item: Item): seq<Item> {
    if item.depth >= max then []
    else
      var below := Below(fs, item.dir);
      seq(|below|, i requires 0 <= i < |below| => Item(below[i], item.depth + 1))
  }

  lemma LayeredAfterPush(queue: seq<Item>, more: seq<Item>)
    requires queue != [] && Layered(queue)
    requires forall i :: 0 <= i < |more| ==> more[i].depth == queue[0].depth + 1
    ensures Layered(queue[1..] + more)
    ensures forall j :: 0 <= j < |queue[1..] + more| ==> queue[0].depth <= (queue[1..] + more)[j].depth
  {
    var r := queue[1..] + more;
    assert forall i :: 0 <= i < |queue| - 1 ==> r[i] == queue[i + 1];
    assert forall i :: |queue| - 1 <= i < |r| ==> r[i] == more[i - (|queue| - 1)];
  }

  /** Adding the children of the item just removed keeps the queue layered and sound. */
  lemma ChildrenKeepOrder(fs: FileSystem, root: string, max: nat, queue: seq<Item>)
    requires queue != [] && Layered(queue) && Sound(fs, root, max, queue)
    ensures
      var r := queue[1..] + Children(fs, max, queue[0]);
      Layered(r) && Sound(fs, root, max, r) && forall j :: 0 <= j < |r| ==> queue[0].depth <= r[j].depth
  {
    hide Level, Below, Layered;
    var item, more := queue[0], Children(fs, max, queue[0]);
    LayeredAfterPush(queue, more);
    forall i | 0 <= i < |more| ensures more[i].depth <= max && more[i].dir in Level(fs, root, more[i].depth) {
      assert more[i].dir in Below(fs, item.dir);
      LevelStep(fs, root, item.depth, item.dir, more[i].dir);
    }
    assert Sound(fs, root, max, more);
    assert Sound(fs, root, max, queue[1..]);
  }

  lemma VisitKeepsFrontier(fs: FileSystem, root: string, max: nat, dirs: seq<string>, depths: seq<nat>, queue: seq<Item>)
    requires |depths| == |dirs| && Frontier(fs, max, dirs, depths, queue) && queue != []
    ensures Frontier(fs, max, dirs + [queue[0].dir], depths + [queue[0].depth],
                     queue[1..] + Children(fs, max, queue[0]))
  {
    hide Below;
    var item, more := queue[0], Children(fs, max, queue[0]);
    var dirs', depths', queue' := dirs + [item.dir], depths + [item.depth], queue[1..] + more;
    assert queue == [item] + queue[1..];
    forall i, c | 0 <= i < |dirs'| && depths'[i] < max && c in Below(fs, dirs'[i])
      ensures c in dirs' || Item(c, depths'[i] + 1) in queue'
    {
      if i < |dirs| {
        assert c in dirs || Item(c, depths[i] + 1) in queue;
      } else {
        var k :| 0 <= k < |Below(fs, item.dir)| && Below(fs, item.dir)[k] == c;
        assert more[k] == Item(c, item.depth + 1);
      }
    }
  }

  lemma VisitedAppend(fs: FileSystem, root: string, max: nat, dirs: seq<string>, depths: seq<nat>, item: Item)
    requires Distinct(dirs) && Visited(fs, root, max, dirs, depths) && item.dir !in dirs
    requires IsDistance(fs, root, item.dir, item.depth) && item.depth <= max
    requires forall i :: 0 <= i < |depths| ==> depths[i] <= item.depth
    ensures Distinct(dirs + [item.dir]) && Visited(fs, root, max, dirs + [item.dir], depths + [item.depth])
  {
    hide Level, IsDistance;
  }

  lemma SoundFront(fs: FileSystem, root: string, max: nat, queue: seq<Item>)
    requires queue != [] && Sound(fs, root, max, queue)
    ensures queue[0].depth <= max && queue[0].dir in Within(fs, root, max)
  {
    hide Level, Within;
    assert queue[0].dir in Level(fs, root, queue[0].depth);
    WithinIs(fs, root, max, queue[0].dir);
  }

  lemma VisitedLength(fs: FileSystem, root: string, max: nat, dirs: seq<string>, depths: seq<nat>)
    requires Visited(fs, root, max, dirs, depths)
    ensures |depths| == |dirs|
  {
    hide Level, IsDistance;
  }

  /** A directory met for the first time is appended, at its distance, and its children are queued. */
  lemma VisitKeeps(fs: FileSystem, root: string, max: nat, dirs: seq<string>, depths: seq<nat>, queue: seq<Item>)
    requires Walk(fs, root, max, dirs, depths, queue) && queue != [] && queue[0].dir !in dirs
    ensures Walk(fs, root, max, dirs + [queue[0].dir], depths + [queue[0].depth],
                 queue[1..] + Children(fs, max, queue[0]))
    ensures queue[0].dir in Within(fs, root, max)
  {
    hide Level, Below, Within, Children, Frontier, IsDistance, Distinct, Visited, Layered, Sound;
    FrontIsNearest(fs, root, max, dirs, depths, queue);
    SoundFront(fs, root, max, queue);
    VisitedAppend(fs, root, max, dirs, depths, queue[0]);
    ChildrenKeepOrder(fs, root, max, queue);
    VisitedLength(fs, root, max, dirs, depths);
    VisitKeepsFrontier(fs, root, max, dirs, depths, queue);
    if root !in dirs {
      assert queue == [queue[0]] + queue[1..];
    }
  }

  /** With an empty queue everything within the limit has been visited. */
  lemma EmptyQueueIsDone(fs: FileSystem, root: string, max: nat, dirs: seq<string>, depths: seq<nat>)
    requires Walk(fs, root, max, dirs, depths, [])
    ensures forall x :: x in dirs <==> x in Within(fs, root, max)
  {
    hide Level, Within;
    forall x ensures x in dirs <==> x in Within(fs, root, max) {
      WithinIs(fs, root, max, x);
      if k :| 0 <= k <= max && x in Level(fs, root, k) {
        Progress(fs, root, max, dirs, depths, [], x, k);
      }
    }
  }

  /**
   Returns exactly the directories at most `maxDepth` steps away, each once, nearest first.
   It ends although links can make the paths below the root unboundedly many.
   */
  method Collect(root: string, maxDepth: int, fs: FileSystem) returns (dirs: seq<string>)
    ensures Distinct(dirs)
    ensures forall x :: x in dirs <==> x in Within(fs, root, Depth(maxDepth))
    ensures forall i, j, m, n ::
      0 <= i < j < |dirs| && IsDistance(fs, root, dirs[i], m) && IsDistance(fs, root, dirs[j], n) ==> m <= n
  {
    hide Level, Within, Walk, Below, Followed;
    dirs := [];
    ghost var depths: seq<nat> := [];
    var queue := [Item(root, 0)];
    var seen: set<string> := {};
    ghost var max := Depth(maxDepth);
    WalkStarts(fs, root, max);
    while |queue| > 0
      invariant seen == set x | x in dirs
      invariant Walk(fs, root, max, dirs, depths, queue)
      decreases Within(fs, root, max) - seen, |queue|
    {
      ghost var before := queue;
      var item := queue[0];
      queue := queue[1..];
      if item.dir in seen {
        SkipKeeps(fs, root, max, dirs, depths, before);
        continue;
      }
      VisitKeeps(fs, root, max, dirs, depths, before);
      seen := seen + {item.dir};
      dirs := dirs + [item.dir];
      depths := depths + [item.depth];
      if item.depth >= maxDepth {
        assert queue + Children(fs, max, item) == queue;
        continue;
      }
      var listing := fs(item.dir);
      if listing.Unreadable? {
        BelowIs(fs, item.dir);
        assert queue + Children(fs, max, item) == queue;
        continue;
      }
      BelowIs(fs, item.dir);
      queue := Push(queue, listing.entries, item.depth + 1);
      assert queue == before[1..] + Children(fs, max, item);
    }
    assert queue == [];
    EmptyQueueIsDone(fs, root, max, dirs, depths);
    NearestFirst(fs, root, max, dirs, depths);
  }

  lemma BelowIs(fs: FileSystem, dir: string)
    ensures Below(fs, dir) == if fs(dir).Unreadable? then [] else Followed(fs(dir).entries)
  {
  }

  lemma NearestFirst(fs: FileSystem, root: string, max: nat, dirs: seq<string>, depths: seq<nat>)
    requires Walk(fs, root, max, dirs, depths, [])
    ensures Distinct(dirs)
    ensures forall i, j, m, n ::
      0 <= i < j < |dirs| && IsDistance(fs, root, dirs[i], m) && IsDistance(fs, root, dirs[j], n) ==> m <= n
  {
    hide Level;
    forall i, j, m, n | 0 <= i < j < |dirs| && IsDistance(fs, root, dirs[i], m) && IsDistance(fs, root, dirs[j], n)
      ensures m <= n
    {
      assert m == depths[i] && n == depths[j];
    }
  }
}
