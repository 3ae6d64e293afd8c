/**
 Windows over a large accessibility snapshot. A response holds one chunk of the text, a
 marker saying where to continue, and the tail of the text with its navigation links.
 */
module SnapshotWindow {
  import opened Text

  const MAX_SNAPSHOT_CHARS := 80000
  const SNAPSHOT_TAIL_CHARS := 5000
  /** What a response has left for its chunk: 200 characters are for the marker. */
  const CONTENT_BUDGET := 74800

  datatype Next = NoNext | At(offset: nat)

  datatype Window = Window(text: string, truncated: bool, totalChars: nat, offset: nat, hasMore: bool, next: Next)

  function Clamp(offset: int, last: nat): nat {
    var low := if offset < 0 then 0 else offset;
    if low < last then low else last
  }

  function Marker(end: nat, total: nat): string {
    "\n[... truncated at char " + Decimal(end) + " of " + Decimal(total) + ". Call snapshot with offset=" + Decimal(end)
    + " to see more. " + "Pagination links below. ...]\n"
  }

  function WindowAt(yaml: string, offset: int): Window {
    var total := |yaml|;
    if yaml == "" then Window("", false, 0, 0, false, NoNext)
    else if total <= MAX_SNAPSHOT_CHARS then Window(yaml, false, total, 0, false, NoNext)
    else
      var start := Clamp(offset, total - SNAPSHOT_TAIL_CHARS);
      var end := start + CONTENT_BUDGET;
      var hasMore := end < total - SNAPSHOT_TAIL_CHARS;
      Window(Slice(yaml, start, end) + (if hasMore then Marker(end, total) else "\n") + yaml[total - SNAPSHOT_TAIL_CHARS..],
             true, total, start, hasMore, if hasMore then At(end) else NoNext)
  }

  /** A slice that stops at the end of the text. */
  function Slice(s: string, start: nat, end: nat): string
    requires start <= |s| && start <= end
  {
    if end <= |s| then s[start..end] else s[start..]
  }

  /** A cut response starts at the offset asked for, or at the nearest one that lies in the text before the tail. */
  lemma OffsetIsNearest(yaml: string, offset: int)
    requires |yaml| > MAX_SNAPSHOT_CHARS
    ensures
      var o, last := WindowAt(yaml, offset).offset, |yaml| - SNAPSHOT_TAIL_CHARS;
      o == if offset < 0 then 0 else if offset > last then last else offset
  {
  }

  /** A short text comes whole, whatever offset is asked for; a response knows the length of the text. */
  lemma ShortTextComesWhole(yaml: string, offset: int)
    ensures
      var w := WindowAt(yaml, offset);
      && w.totalChars == |yaml| && (w.truncated <==> |yaml| > MAX_SNAPSHOT_CHARS)
      && (|yaml| <= MAX_SNAPSHOT_CHARS ==> w.text == yaml && w.offset == 0 && !w.hasMore && w.next == NoNext)
  {
  }

  /** What a marker says: the place of the cut, the total and the offset to continue with. */
  ghost function Says(end: nat, total: nat): string {
    "\n[... truncated at char " + Decimal(end) + " of " + Decimal(total) + ". Call snapshot with offset=" + Decimal(end)
    + " to see more. "
  }

  lemma MarkerSays(end: nat, total: nat)
    ensures Says(end, total) <= Marker(end, total)
  {
    hide Decimal;
  }

  lemma PrefixInside(a: string, b: string, m: string, c: string)
    requires b <= m
    ensures a + b <= a + m + c
  {
  }

  lemma ThreeParts(a: string, b: string, c: string, n: nat)
    requires n <= |a|
    ensures (a + b + c)[..n] == a[..n] && (a + b + c)[|a| + |b|..] == c
  {
  }

  /** The three parts of a cut response. */
  lemma TextIs(yaml: string, offset: int)
    requires |yaml| > MAX_SNAPSHOT_CHARS
    ensures
      var w, last := WindowAt(yaml, offset), |yaml| - SNAPSHOT_TAIL_CHARS;
      && w.truncated && w.totalChars == |yaml| && w.offset <= last && (w.hasMore <==> w.offset + CONTENT_BUDGET < last)
      && w.next == (if w.hasMore then At(w.offset + CONTENT_BUDGET) else NoNext)
      && w.text == Slice(yaml, w.offset, w.offset + CONTENT_BUDGET)
           + (if w.hasMore then Marker(w.offset + CONTENT_BUDGET, |yaml|) else "\n") + yaml[last..]
  {
    hide Marker, Slice;
  }

  /** A cut response begins with its chunk up to the continuation and a marker that names the continuation. */
  lemma MarkerNamesContinuation(yaml: string, offset: int)
    requires WindowAt(yaml, offset).hasMore
    ensures
      var w := WindowAt(yaml, offset);
      && w.next.At? && w.offset <= w.next.offset <= |yaml|
      && yaml[w.offset..w.next.offset] + Says(w.next.offset, |yaml|) <= w.text
  {
    assert |yaml| > MAX_SNAPSHOT_CHARS;
    hide Marker, Says, WindowAt;
    TextIs(yaml, offset);
    var w, total := WindowAt(yaml, offset), |yaml|;
    var end := w.next.offset;
    var chunk, tail := yaml[w.offset..end], yaml[total - SNAPSHOT_TAIL_CHARS..];
    assert Slice(yaml, w.offset, end) == chunk;
    hide Slice;
    MarkerSays(end, total);
    PrefixInside(chunk, Says(end, total), Marker(end, total), tail);
  }

  // ----- following the responses

  /** A continuation lies strictly further on, and asking for it is not clamped. */
  lemma NextIsFurther(yaml: string, offset: int)
    requires WindowAt(yaml, offset).next.At?
    ensures
      var w := WindowAt(yaml, offset);
      && offset < w.next.offset < |yaml|
      && w.next.offset == w.offset + CONTENT_BUDGET
      && WindowAt(yaml, w.next.offset).offset == w.next.offset
  {
  }

  /** The responses a caller gets by asking for `offset` and then for each continuation. */
  function Follow(yaml: string, offset: nat): seq<Window>
    decreases |yaml| - offset
  {
    var w := WindowAt(yaml, offset);
    if w.next.NoNext? then [w]
    else
      NextIsFurther(yaml, offset);
      [w] + Follow(yaml, w.next.offset)
  }

  /** How much of a response's chunk lies before its successor or before the tail. */
  function PieceLength(w: Window): int {
    (if w.next.At? then w.next.offset else w.totalChars - SNAPSHOT_TAIL_CHARS) - w.offset
  }

  function PieceOf(w: Window): string {
    if 0 <= PieceLength(w) <= |w.text| then w.text[..PieceLength(w)] else ""
  }

  function TailOf(w: Window): string {
    if SNAPSHOT_TAIL_CHARS <= |w.text| then w.text[|w.text| - SNAPSHOT_TAIL_CHARS..] else ""
  }

  /** Rebuilds the text from the responses alone: the pieces in order, then the last tail. */
  function Reassemble(ws: seq<Window>): string {
    if ws == [] then ""
    else if !ws[0].truncated then ws[0].text
    else PieceOf(ws[0]) + if |ws| == 1 then TailOf(ws[0]) else Reassemble(ws[1..])
  }

  /** The snapshot is cut, and the offset lies before its tail. */
  ghost predicate InRange(yaml: string, offset: nat) {
    |yaml| > MAX_SNAPSHOT_CHARS && offset <= |yaml| - SNAPSHOT_TAIL_CHARS
  }

  lemma PartsAre(w: Window, chunk: string, middle: string, tail: string)
    requires w.text == chunk + middle + tail && |tail| == SNAPSHOT_TAIL_CHARS && 0 <= PieceLength(w) <= |chunk|
    ensures PieceOf(w) == chunk[..PieceLength(w)] && TailOf(w) == tail
  {
    hide PieceLength;
    ThreeParts(chunk, middle, tail, PieceLength(w));
  }

  /** The beginning of a slice, followed by the text behind that beginning, is the text behind its start. */
  lemma SliceJoins(s: string, start: nat, end: nat, n: nat)
    requires start <= |s| && start <= end && start + n <= |s| && start + n <= end
    ensures n <= |Slice(s, start, end)| && Slice(s, start, end)[..n] + s[start + n..] == s[start..]
  {
    assert Slice(s, start, end)[..n] == s[start..start + n];
  }

  /** What one response contributes: the text up to its continuation, or up to and with the tail. */
  lemma PieceIs(yaml: string, offset: nat)
    requires InRange(yaml, offset)
    ensures
      var w := WindowAt(yaml, offset);
      && w.offset == offset && w.truncated && (w.hasMore <==> w.next.At?)
      && if w.next.At?
         then offset <= w.next.offset <= |yaml| && InRange(yaml, w.next.offset)
              && PieceOf(w) + yaml[w.next.offset..] == yaml[offset..]
         else PieceOf(w) + TailOf(w) == yaml[offset..]
  {
    OffsetIsNearest(yaml, offset);
    TextIs(yaml, offset);
    hide Marker, WindowAt, Slice, PieceOf, TailOf;
    var w, end := WindowAt(yaml, offset), offset + CONTENT_BUDGET;
    SliceJoins(yaml, offset, end, PieceLength(w));
    PartsAre(w, Slice(yaml, offset, end), if w.hasMore then Marker(end, |yaml|) else "\n", yaml[|yaml| - SNAPSHOT_TAIL_CHARS..]);
  }

  lemma {:induction false} FollowUnfolds(yaml: string, offset: nat)
    requires InRange(yaml, offset)
    ensures
      var w := WindowAt(yaml, offset);
      if w.next.NoNext? then Follow(yaml, offset) == [w]
      else offset < w.next.offset < |yaml| && Follow(yaml, offset) == [w] + Follow(yaml, w.next.offset)
    ensures Follow(yaml, offset) != [] && Follow(yaml, offset)[0] == WindowAt(yaml, offset)
  {
    if WindowAt(yaml, offset).next.At? {
      NextIsFurther(yaml, offset);
    }
  }

  lemma {:induction false} FollowRebuilds(yaml: string, offset: nat)
    requires InRange(yaml, offset) && offset <= |yaml|
    ensures Reassemble(Follow(yaml, offset)) == yaml[offset..]
    decreases |yaml| - offset
  {
    hide InRange, WindowAt, Follow, PieceOf, TailOf;
    PieceIs(yaml, offset);
    FollowUnfolds(yaml, offset);
    var w := WindowAt(yaml, offset);
    if w.next.At? {
      var rest := Follow(yaml, w.next.offset);
      FollowRebuilds(yaml, w.next.offset);
      FollowUnfolds(yaml, w.next.offset);
      assert ([w] + rest)[1..] == rest;
    }
  }

  /** Following the continuations from the start rebuilds every snapshot exactly. */
  lemma Reassembly(yaml: string)
    ensures Reassemble(Follow(yaml, 0)) == yaml
  {
    if |yaml| > MAX_SNAPSHOT_CHARS {
      FollowRebuilds(yaml, 0);
      assert yaml[0..] == yaml;
    }
  }

  /** Along the chain every response is the one asked for, unclamped, where the previous one said. */
  lemma {:induction false} OffsetsAreSteps(yaml: string, offset: nat, k: nat)
    requires InRange(yaml, offset) && k < |Follow(yaml, offset)|
    ensures
      var ws := Follow(yaml, offset);
      && ws[k] == WindowAt(yaml, ws[k].offset)
      && (k == 0 ==> ws[k].offset == offset)
      && ws[k].hasMore == (k + 1 < |ws|)
      && ws[k].next == if k + 1 < |ws| then At(ws[k + 1].offset) else NoNext
    decreases k
  {
    hide InRange, WindowAt, Follow, PieceOf, TailOf;
    PieceIs(yaml, offset);
    FollowUnfolds(yaml, offset);
    var next := WindowAt(yaml, offset).next;
    if next.At? {
      PieceIs(yaml, next.offset);
      FollowUnfolds(yaml, next.offset);
      if k > 0 {
        OffsetsAreSteps(yaml, next.offset, k - 1);
      }
    }
  }

  /** The number of responses: one for each started budget before the tail. */
  lemma {:induction false} ResponseCount(yaml: string, offset: nat)
    requires |yaml| > MAX_SNAPSHOT_CHARS && offset < |yaml| - SNAPSHOT_TAIL_CHARS
    ensures (|Follow(yaml, offset)| - 1) * CONTENT_BUDGET < |yaml| - SNAPSHOT_TAIL_CHARS - offset
      <= |Follow(yaml, offset)| * CONTENT_BUDGET
    decreases |yaml| - offset
  {
    PieceIs(yaml, offset);
    FollowUnfolds(yaml, offset);
    hide Follow, PieceOf, TailOf;
    var w := WindowAt(yaml, offset);
    if w.next.At? {
      NextIsFurther(yaml, offset);
      ResponseCount(yaml, w.next.offset);
    }
  }

  // ----- the size of a response

  lemma MarkerLength(end: nat, total: nat)
    ensures |Marker(end, total)| == 99 + 2 * |Decimal(end)| + |Decimal(total)|
  {
    hide Decimal;
  }

  /** No response exceeds the limit, for any offset and any total of at most 33 digits. */
  lemma SizeBound(yaml: string, offset: int)
    requires |yaml| < Pow10(33)
    ensures |WindowAt(yaml, offset).text| <= MAX_SNAPSHOT_CHARS
  {
    hide Pow10, Decimal;
    var w := WindowAt(yaml, offset);
    if w.hasMore {
      var end := w.offset + CONTENT_BUDGET;
      MarkerLength(end, |yaml|);
      DecimalLength(end, 33);
      DecimalLength(|yaml|, 33);
    }
  }
}
