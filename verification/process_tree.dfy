/**
 Selection of the processes descending from a server process: a loop that keeps adding
 processes whose parent is already selected until a full pass adds nothing. The Linux and
 the Windows snapshot run the same loop on their own process lists.
 */
module ProcessTree {

  /** The parent as read from the system; `Unknown` when it could not be read. */
  datatype Parent = Unknown | Pid(pid: int)

  datatype Process = Process(pid: int, parent: Parent, startTime: string, commandLine: string)

  // ----- what descending means

  /** Each process of the chain is listed and the next one is its parent. */
  ghost predicate IsChain(chain: seq<Process>, list: seq<Process>) {
    && (forall i :: 0 <= i < |chain| ==> chain[i] in list)
    && (forall i :: 0 <= i < |chain| - 1 ==> chain[i].parent == Pid(chain[i + 1].pid))
  }

  ghost predicate LeadsTo(chain: seq<Process>, list: seq<Process>, pid: int, root: int) {
    && chain != [] && IsChain(chain, list)
    && chain[0].pid == pid && chain[|chain| - 1].parent == Pid(root)
  }

  /** The root itself, or the start of a chain of listed parents ending at the root. */
  ghost predicate Descends(list: seq<Process>, pid: int, root: int) {
    pid == root || exists chain :: LeadsTo(chain, list, pid, root)
  }

  lemma ChildDescends(list: seq<Process>, p: Process, root: int)
    requires p in list && p.parent.Pid? && Descends(list, p.parent.pid, root)
    ensures Descends(list, p.pid, root)
  {
    if p.parent.pid == root {
      assert LeadsTo([p], list, p.pid, root);
    } else {
      var chain :| LeadsTo(chain, list, p.parent.pid, root);
      assert LeadsTo([p] + chain, list, p.pid, root);
    }
  }

  /** A set that contains the root and every child of a member contains all descendants. */
  ghost predicate Closed(ids: set<int>, list: seq<Process>) {
    forall p :: p in list && p.parent.Pid? && p.parent.pid in ids ==> p.pid in ids
  }

  lemma {:induction false} ClosedHoldsChain(ids: set<int>, list: seq<Process>, chain: seq<Process>, pid: int, root: int)
    requires root in ids && Closed(ids, list) && LeadsTo(chain, list, pid, root)
    ensures pid in ids
    decreases |chain|
  {
    assert chain[0] in list;
    if |chain| > 1 {
      var rest := chain[1..];
      assert forall i :: 0 <= i < |rest| ==> rest[i] == chain[i + 1];
      assert LeadsTo(rest, list, rest[0].pid, root);
      ClosedHoldsChain(ids, list, rest, rest[0].pid, root);
    }
  }

  // ----- the loop

  ghost function PidsOf(list: seq<Process>): set<int> {
    set p | p in list :: p.pid
  }

  lemma SubsetSize<T>(a: set<T>, b: set<T>)
    requires a <= b
    ensures |a| <= |b|
  {
    if a != {} {
      var x :| x in a;
      SubsetSize(a - {x}, b - {x});
    }
  }

  lemma SmallerSet<T>(a: set<T>, b: set<T>)
    requires a < b
    ensures |a| < |b|
  {
    assert b - a != {};
    var x :| x in b - a;
    SubsetSize(a, b - {x});
  }

  /** Repeats passes over the list until one adds nothing; ends for cyclic and repeated entries too. */
  method Descendants(root: int, list: seq<Process>) returns (ids: set<int>)
    ensures forall pid :: pid in ids <==> Descends(list, pid, root)
  {
    ids := {root};
    ghost var all := PidsOf(list) + {root};
    var changed := true;
    while changed
      invariant root in ids && ids <= all
      invariant forall pid :: pid in ids ==> Descends(list, pid, root)
      invariant !changed ==> Closed(ids, list)
      decreases |all - ids|, changed
    {
      changed := false;
      ghost var start := ids;
      for i := 0 to |list|
        invariant start <= ids <= all && (changed <==> ids != start)
        invariant forall pid :: pid in ids ==> Descends(list, pid, root)
        invariant !changed ==>
          forall k :: 0 <= k < i && list[k].parent.Pid? && list[k].parent.pid in ids ==> list[k].pid in ids
      {
        var p := list[i];
        if p.pid !in ids && p.parent.Pid? && p.parent.pid in ids {
          ChildDescends(list, p, root);
          ids := ids + {p.pid};
          changed := true;
        }
      }
      if changed {
        SmallerSet(all - ids, all - start);
      }
    }
    forall pid | Descends(list, pid, root) ensures pid in ids {
      if pid != root {
        var chain :| LeadsTo(chain, list, pid, root);
        ClosedHoldsChain(ids, list, chain, pid, root);
      }
    }
  }

  // ----- the two selections

  /** The entries of `list` that descend from the root within `all`, in order, repeats kept. */
  ghost function Owned(list: seq<Process>, all: seq<Process>, root: int): seq<Process> {
    if list == [] then []
    else
      var before := Owned(list[..|list| - 1], all, root);
      var last := list[|list| - 1];
      if Descends(all, last.pid, root) then before + [last] else before
  }

  function Browsers(list: seq<Process>, isBrowser: Process -> bool): seq<Process> {
    if list == [] then []
    else
      var before := Browsers(list[..|list| - 1], isBrowser);
      var last := list[|list| - 1];
      if isBrowser(last) then before + [last] else before
  }

  lemma BrowsersAppend(list: seq<Process>, p: Process, isBrowser: Process -> bool)
    ensures Browsers(list + [p], isBrowser) == Browsers(list, isBrowser) + if isBrowser(p) then [p] else []
  {
    assert (list + [p])[..|list|] == list;
  }

  /** The Linux snapshot: one filter for descent and browser command line together. */
  method SnapshotLinux(root: int, list: seq<Process>, isBrowser: Process -> bool) returns (r: seq<Process>)
    ensures r == Browsers(Owned(list, list, root), isBrowser)
  {
    var ids := Descendants(root, list);
    r := [];
    for i := 0 to |list|
      invariant r == Browsers(Owned(list[..i], list, root), isBrowser)
    {
      assert list[..i + 1][..i] == list[..i];
      if list[i].pid in ids {
        BrowsersAppend(Owned(list[..i], list, root), list[i], isBrowser);
        if isBrowser(list[i]) {
          r := r + [list[i]];
        }
      }
    }
    assert list[..|list|] == list;
  }

  /** The Windows tree: nothing for an unusable root, otherwise every listed descendant. */
  method SelectWindows(root: int, list: seq<Process>) returns (r: seq<Process>)
    ensures r == if root <= 0 then [] else Owned(list, list, root)
  {
    if root <= 0 {
      return [];
    }
    var ids := Descendants(root, list);
    r := [];
    for i := 0 to |list|
      invariant r == Owned(list[..i], list, root)
    {
      assert list[..i + 1][..i] == list[..i];
      if list[i].pid in ids {
        r := r + [list[i]];
      }
    }
    assert list[..|list|] == list;
  }

  method FilterBrowsers(list: seq<Process>, isBrowser: Process -> bool) returns (r: seq<Process>)
    ensures r == Browsers(list, isBrowser)
  {
    r := [];
    for i := 0 to |list|
      invariant r == Browsers(list[..i], isBrowser)
    {
      assert list[..i + 1][..i] == list[..i];
      if isBrowser(list[i]) {
        r := r + [list[i]];
      }
    }
    assert list[..|list|] == list;
  }

  /** On the same list and browser test both snapshots return the same processes. */
  method PlatformsAgree(root: int, list: seq<Process>, isBrowser: Process -> bool)
    returns (linux: seq<Process>, windows: seq<Process>)
    requires root > 0
    ensures linux == windows == Browsers(Owned(list, list, root), isBrowser)
  {
    linux := SnapshotLinux(root, list, isBrowser);
    var tree := SelectWindows(root, list);
    windows := FilterBrowsers(tree, isBrowser);
  }

  /** Membership: a listed browser is selected exactly when its parent chain reaches the root. */
  lemma {:induction false} OwnedMembers(list: seq<Process>, all: seq<Process>, root: int, p: Process)
    ensures p in Owned(list, all, root) <==> p in list && Descends(all, p.pid, root)
  {
    if list != [] {
      var n := |list| - 1;
      OwnedMembers(list[..n], all, root, p);
      assert list == list[..n] + [list[n]];
    }
  }
}
