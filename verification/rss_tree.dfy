/**
 Resident memory of a browser process tree: a depth-first walk over child lists read from
 the process file system, where any read may fail and processes may be listed twice.
 */
module RssTree {
  import opened Optional

  /** What can be read about a process: its resident size and its children, each may fail. */
  datatype Entry = Entry(rssKb: Option<nat>, children: Option<seq<int>>)

  type ProcFs = map<int, Entry>

  /** The memory of a process can be read. */
  predicate Readable(fs: ProcFs, pid: int) {
    pid in fs && fs[pid].rssKb.Some?
  }

  /** Children are read only after the memory was, and only if that read succeeds too. */
  function Children(fs: ProcFs, pid: int): seq<int> {
    if Readable(fs, pid) && fs[pid].children.Some? then fs[pid].children.value else []
  }

  function Kb(fs: ProcFs, pid: int): nat {
    if Readable(fs, pid) then fs[pid].rssKb.value else 0
  }

  /** A process leads to the listed children of a readable process, and counts with its memory if that can be read. */
  lemma ReadsAre(fs: ProcFs, pid: int, child: int)
    ensures child in Children(fs, pid) <==>
      && pid in fs && fs[pid].rssKb.Some? && fs[pid].children.Some? && child in fs[pid].children.value
    ensures Kb(fs, pid) == match (if pid in fs then fs[pid].rssKb else None) case Some(kb) => kb case None => 0
  {
  }

  // ----- reachability and sums

  /** A path from `root` to `x` along child lists. */
  ghost predicate IsPath(fs: ProcFs, path: seq<int>, root: int, x: int) {
    && path != [] && path[0] == root && path[|path| - 1] == x
    && forall i :: 0 <= i < |path| - 1 ==> path[i + 1] in Children(fs, path[i])
  }

  ghost predicate Reachable(fs: ProcFs, root: int, x: int) {
    exists path :: IsPath(fs, path, root, x)
  }

  lemma ReachableStep(fs: ProcFs, root: int, x: int, child: int)
    requires Reachable(fs, root, x) && child in Children(fs, x)
    ensures Reachable(fs, root, child)
  {
    var path :| IsPath(fs, path, root, x);
    assert IsPath(fs, path + [child], root, child);
  }

  ghost predicate Closed(fs: ProcFs, s: set<int>) {
    forall x, c :: x in s && c in Children(fs, x) ==> c in s
  }

  lemma {:induction false} ClosedHoldsPath(fs: ProcFs, s: set<int>, path: seq<int>, root: int, x: int)
    requires root in s && Closed(fs, s) && IsPath(fs, path, root, x)
    ensures x in s
    decreases |path|
  {
    var n := |path| - 1;
    if n > 0 {
      var front := path[..n];
      assert IsPath(fs, front, root, front[n - 1]);
      ClosedHoldsPath(fs, s, front, root, front[n - 1]);
      assert path[n] in Children(fs, path[n - 1]);
    }
  }

  ghost function ListedBy(fs: ProcFs, pid: int): set<int> {
    set c | c in Children(fs, pid)
  }

  /** Every process number that occurs anywhere: a finite bound for the walk. */
  ghost function Mentioned(fs: ProcFs, root: int): set<int> {
    {root} + set p, c | p in fs.Keys && c in ListedBy(fs, p) :: c
  }

  /** All processes reachable from the root. */
  ghost function Tree(fs: ProcFs, root: int): set<int> {
    set x | x in Mentioned(fs, root) && Reachable(fs, root, x)
  }

  lemma MentionsChildren(fs: ProcFs, root: int, x: int, c: int)
    requires c in Children(fs, x)
    ensures c in Mentioned(fs, root)
  {
    assert x in fs.Keys && c in ListedBy(fs, x);
  }

  lemma TreeIsReachable(fs: ProcFs, root: int, x: int)
    ensures x in Tree(fs, root) <==> Reachable(fs, root, x)
  {
    if Reachable(fs, root, x) {
      var path :| IsPath(fs, path, root, x);
      var n := |path| - 1;
      if n > 0 {
        assert path[n] in Children(fs, path[n - 1]);
        MentionsChildren(fs, root, path[n - 1], x);
      }
    }
  }

  ghost function Pick<T>(s: set<T>): (x: T)
    requires s != {}
    ensures x in s
  {
    var x :| x in s;
    x
  }

  ghost function TotalKb(fs: ProcFs, s: set<int>): nat {
    if s == {} then 0 else Kb(fs, Pick(s)) + TotalKb(fs, s - {Pick(s)})
  }

  /** The sum does not depend on the order in which members are taken. */
  lemma {:induction false} TotalKbRemove(fs: ProcFs, s: set<int>, x: int)
    requires x in s
    ensures TotalKb(fs, s) == Kb(fs, x) + TotalKb(fs, s - {x})
    decreases |s|
  {
    var y := Pick(s);
    if y != x {
      TotalKbRemove(fs, s - {y}, x);
      TotalKbRemove(fs, s - {x}, y);
      assert s - {y} - {x} == s - {x} - {y};
    }
  }

  // ----- the walk

  /** Rounds half up, for sizes that are never negative. */
  function RoundToMb(kb: nat): nat {
    (kb + 512) / 1024
  }

  /** The rounded size is the nearest number of megabytes. */
  lemma RoundsToNearest(kb: nat)
    ensures 1024 * RoundToMb(kb) - 512 <= kb < 1024 * RoundToMb(kb) + 512
  {
  }

  /** Seen processes have all their children seen or still on the stack. */
  ghost predicate Frontier(fs: ProcFs, seen: set<int>, stack: seq<int>) {
    forall x, c :: x in seen && c in Children(fs, x) ==> c in seen || c in stack
  }

  ghost predicate Found(fs: ProcFs, root: int, x: int) {
    Reachable(fs, root, x) && x in Mentioned(fs, root)
  }

  /** Only reachable processes are met. */
  ghost predicate AllFound(fs: ProcFs, root: int, seen: set<int>, stack: seq<int>) {
    (forall x :: x in seen ==> Found(fs, root, x)) && (forall x :: x in stack ==> Found(fs, root, x))
  }

  lemma StartHolds(fs: ProcFs, root: int)
    ensures Frontier(fs, {}, [root]) && AllFound(fs, root, {}, [root])
  {
    assert IsPath(fs, [root], root, root);
  }

  /** Taking a process off the stack, whether it was seen before or not. */
  lemma PopKeeps(fs: ProcFs, root: int, seen: set<int>, stack: seq<int>, pid: int)
    requires Frontier(fs, seen, stack + [pid]) && AllFound(fs, root, seen, stack + [pid])
    ensures pid in seen ==> Frontier(fs, seen, stack)
    ensures AllFound(fs, root, seen, stack) && pid in Mentioned(fs, root)
    ensures Frontier(fs, seen + {pid}, stack + Children(fs, pid))
    ensures AllFound(fs, root, seen + {pid}, stack + Children(fs, pid))
  {
    assert pid in stack + [pid];
    assert forall x :: x in stack ==> x in stack + [pid];
    forall c | c in Children(fs, pid) ensures Found(fs, root, c) {
      ReachableStep(fs, root, pid, c);
      MentionsChildren(fs, root, pid, c);
    }
  }

  /** With nothing left on the stack, the seen processes are the tree. */
  lemma EmptyStackIsDone(fs: ProcFs, root: int, seen: set<int>)
    requires root in seen && Frontier(fs, seen, []) && AllFound(fs, root, seen, [])
    ensures seen == Tree(fs, root)
  {
    forall x ensures x in seen <==> x in Tree(fs, root) {
      TreeIsReachable(fs, root, x);
      if Reachable(fs, root, x) {
        var path :| IsPath(fs, path, root, x);
        ClosedHoldsPath(fs, seen, path, root, x);
      }
    }
  }

  /**
   The tree's memory in megabytes. Each reachable process counts once, however often it is
   listed; there is no result exactly when the root is unusable or cannot be read.
   */
  method TreeRssMb(linux: bool, root: int, fs: ProcFs) returns (r: Option<nat>)
    ensures r == if linux && root > 0 && Readable(fs, root) then Some(RoundToMb(TotalKb(fs, Tree(fs, root)))) else None
  {
    if !linux || root <= 0 {
      return None;
    }
    hide Reachable, Mentioned, Tree, Found, AllFound, Frontier;
    var seen: set<int> := {};
    var totalKb := 0;
    var stack := [root];
    var foundRoot := false;
    StartHolds(fs, root);
    while |stack| > 0
      invariant root in seen || root in stack
      invariant Frontier(fs, seen, stack) && AllFound(fs, root, seen, stack)
      invariant totalKb == TotalKb(fs, seen)
      invariant foundRoot <==> root in seen && Readable(fs, root)
      decreases Mentioned(fs, root) - seen, |stack|
    {
      ghost var before := stack;
      var pid := stack[|stack| - 1];
      stack := stack[..|stack| - 1];
      assert before == stack + [pid];
      PopKeeps(fs, root, seen, stack, pid);
      if pid in seen {
        continue;
      }
      TotalKbRemove(fs, seen + {pid}, pid);
      assert seen + {pid} - {pid} == seen;
      seen := seen + {pid};
      ghost var popped := stack;
      if Readable(fs, pid) {
        totalKb := totalKb + fs[pid].rssKb.value;
        if pid == root {
          foundRoot := true;
        }
        if fs[pid].children.Some? {
          stack := stack + fs[pid].children.value;
        }
      }
      assert stack == popped + Children(fs, pid);
    }
    assert stack == [];
    EmptyStackIsDone(fs, root, seen);
    return if foundRoot then Some(RoundToMb(totalKb)) else None;
  }
}
