/** Scrolling a virtual list: every frame is observed, and a frame that asks for a refresh is answered
    by mounting the new window. The number of rebuilds is bounded by the distance scrolled. */
module RowsRuns {

  import opened Wrappers
  import opened Rows
  import opened RowsPlacement

  /** A list on screen: its viewport, the rows mounted, the rows shown when they were, and the rebuilds and
      scrolled rows so far. */
  datatype List = List(view: View, mounted: Range, built: Range, rebuilds: nat, scrolled: nat)

  function Height(shown: Range): int {
    shown.end - shown.start
  }

  /** One frame: the list is drawn, and remounted if the frame asked for it. The application still
      holds `request`. */
  function Frame(l: List, count: u64, request: Request, notify: bool, shown: Range): List
    requires shown.start <= shown.end
  {
    var (view, event) := Observed(l.view, shown, count, l.mounted, notify);
    var moved := l.(view := view, scrolled := l.scrolled + Distance(l.view.visible.start, shown.start));
    if event.Some? && event.value.refresh then
      var rendered := Rendered(view, count, request);
      moved.(view := rendered, mounted := WindowOf(rendered, count), built := rendered.visible,
             rebuilds := l.rebuilds + 1)
    else moved
  }

  // A list that stands still.

  /** After a frame rebuilds, and unless its rendering asks for a scroll, the same frame is quiet. */
  lemma RebuiltIsQuiet(view: View, count: u64, request: Request, shown: Range)
    requires shown.start <= shown.end && view.visible == shown && view.rows == Max(Height(shown), 1)
    requires view.pendingScroll == None
    ensures var rendered := Rendered(view, count, request);
            rendered.pendingScroll == None ==> !NeedsRefresh(shown, view.rows, count, WindowOf(rendered, count))
  {
  }

  /** A frame drawn twice never rebuilds twice: whatever the list, the rows mounted and the request held, and
      however many rows the frame shows. */
  lemma RepeatIsQuiet(l: List, count: u64, request: Request, notify: bool, shown: Range)
    requires shown.start <= shown.end
    ensures var f := Frame(l, count, request, notify, shown);
            var again := Frame(f, count, request, notify, shown);
            again.rebuilds == f.rebuilds && again.mounted == f.mounted
  {
    var (view, event) := Observed(l.view, shown, count, l.mounted, notify);
    if event.Some? && event.value.refresh {
      RebuiltIsQuiet(view, count, request, shown);
    }
  }

  /** Frame `i` draws the list before it into the one after. */
  ghost predicate DrawnAt(
    lists: seq<List>, frames: seq<Range>, count: u64, request: Request, notify: bool, i: int) {
    && 0 <= i < |frames| && i + 1 < |lists| && frames[i].start <= frames[i].end
    && lists[i + 1] == Frame(lists[i], count, request, notify, frames[i])
  }

  /** The lists any frames go through, from any list. */
  ghost predicate Draws(lists: seq<List>, frames: seq<Range>, count: u64, request: Request, notify: bool) {
    && |lists| == |frames| + 1
    && forall i | 0 <= i < |frames| :: DrawnAt(lists, frames, count, request, notify, i)
  }

  /** A list that stops moving stops rebuilding: while the frame stays the same, so do the rows mounted. */
  lemma {:induction false} StillListIsQuiet(
    lists: seq<List>, frames: seq<Range>, count: u64, request: Request, notify: bool, m: nat, n: nat)
    requires Draws(lists, frames, count, request, notify) && 0 < m <= n <= |frames|
    requires forall i | m - 1 <= i < n :: frames[i] == frames[m - 1]
    ensures lists[n].rebuilds == lists[m].rebuilds && lists[n].mounted == lists[m].mounted
  {
    if m < n {
      StillListIsQuiet(lists, frames, count, request, notify, m, n - 1);
      assert DrawnAt(lists, frames, count, request, notify, n - 2);
      assert DrawnAt(lists, frames, count, request, notify, n - 1);
      assert frames[n - 2] == frames[n - 1];
      RepeatIsQuiet(lists[n - 2], count, request, notify, frames[n - 1]);
    }
  }

  // A list that scrolls.

  /** A list just mounted at its viewport, with no scroll pending. */
  ghost predicate Mounted(l: List, count: u64) {
    && l.view.rows > 0 && l.view.rows <= count && Settled(l.view, count) && l.view.pendingScroll == None
    && l.mounted == WindowOf(l.view, count) && l.built == l.view.visible
    && l.rebuilds == 0 && l.scrolled == 0
  }

  /** A frame inside a list `count` rows long that shows from `lo` to `hi` of them. */
  ghost predicate InRange(shown: Range, lo: u64, hi: u64, count: u64) {
    0 < lo <= Height(shown) <= hi && shown.end <= count
  }

  /** What scrolling keeps, for frames of `lo` to `hi` rows and a request already applied. */
  ghost predicate Scrolling(l: List, count: u64, lo: u64, hi: u64, request: Request) {
    && l.view.rows == Height(l.view.visible) && l.view.pendingScroll == None && Stale(l.view, request)
    && InRange(l.view.visible, lo, hi, count) && InRange(l.built, lo, hi, count)
    && l.mounted == Range(Max(0, l.built.start - Height(l.built)), Min(count, l.built.end + Height(l.built)))
  }

  /** How far a list must scroll from where it was built before it is rebuilt: the rows mounted beyond it,
      less the guard, and less what the frame shows more than was shown then. */
  function Stride(lo: u64, hi: u64): int {
    2 * lo - hi - Guard(hi) + 1
  }

  lemma FrameKeeps(l: List, count: u64, lo: u64, hi: u64, request: Request, notify: bool, shown: Range)
    requires Scrolling(l, count, lo, hi, request) && InRange(shown, lo, hi, count)
    ensures var f := Frame(l, count, request, notify, shown);
            && Scrolling(f, count, lo, hi, request)
            && f.view.visible == shown
            && f.scrolled == l.scrolled + Distance(l.view.visible.start, shown.start)
            && (f.built, f.rebuilds) ==
                 if NeedsRefresh(shown, Height(shown), count, l.mounted) then (shown, l.rebuilds + 1)
                 else (l.built, l.rebuilds)
  {
    FrameRenders(l, count, request, notify, shown);
  }

  /** What a frame inside the list leaves, with no scroll pending and no request new. */
  lemma FrameRenders(l: List, count: u64, request: Request, notify: bool, shown: Range)
    requires l.view.pendingScroll == None && Stale(l.view, request) && Height(shown) > 0 && shown.end <= count
    ensures var f := Frame(l, count, request, notify, shown);
            && f.view.visible == shown && f.view.rows == Height(shown)
            && f.view.pendingScroll == None && Stale(f.view, request)
            && f.scrolled == l.scrolled + Distance(l.view.visible.start, shown.start)
            && (f.built, f.rebuilds, f.mounted) ==
                 if NeedsRefresh(shown, Height(shown), count, l.mounted) then
                   (shown, l.rebuilds + 1,
                    Range(Max(0, shown.start - Height(shown)), Min(count, shown.end + Height(shown))))
                 else (l.built, l.rebuilds, l.mounted)
  {
    var (view, event) := Observed(l.view, shown, count, l.mounted, notify);
    assert view.rows == Height(shown) && view.visible == shown && Stale(view, request);
    RenderedAgain(view, count, request);
  }

  /** A viewport drawn inside its list renders where it is. */
  lemma RenderedAgain(v: View, count: u64, request: Request)
    requires v.rows == Height(v.visible) > 0 && v.visible.end <= count && Stale(v, request)
    ensures Rendered(v, count, request) == v
    ensures WindowOf(v, count) == Range(Max(0, v.visible.start - v.rows), Min(count, v.visible.end + v.rows))
  {
    ClampSettles(v, count);
    WindowCovers(v, count);
  }

  /** A rebuild takes a scroll of at least one stride from where the list was built; when every frame shows as
      many rows, one stride is enough wherever there are unmounted rows ahead. */
  lemma RebuildTakesStride(built: Range, shown: Range, lo: u64, hi: u64, count: u64)
    requires InRange(built, lo, hi, count) && InRange(shown, lo, hi, count)
    ensures var rows := Height(built);
            var mounted := Range(Max(0, built.start - rows), Min(count, built.end + rows));
            && (NeedsRefresh(shown, Height(shown), count, mounted) ==>
                  Distance(built.start, shown.start) >= Stride(lo, hi))
            && (lo == hi && shown.start >= built.start + Stride(lo, hi) && built.start + 2 * lo < count ==>
                  NeedsRefresh(shown, Height(shown), count, mounted))
  {
  }

  /** The rebuilds so far, and the distance from the last one, are paid for by the rows scrolled. */
  ghost predicate Paid(l: List, stride: int) {
    l.rebuilds * stride + Distance(l.built.start, l.view.visible.start) <= l.scrolled
  }

  ghost predicate Covered(l: List) {
    l.mounted.start <= l.view.visible.start && l.view.visible.end <= l.mounted.end
  }

  /** A rebuild is paid for by the distance since the last one, which the triangle inequality gives. */
  lemma Payment(rebuilds: nat, stride: int, builtAt: int, from: int, to: int, scrolled: int)
    requires rebuilds * stride + Distance(builtAt, from) <= scrolled
    ensures rebuilds * stride + Distance(builtAt, to) <= scrolled + Distance(from, to)
    ensures Distance(builtAt, to) >= stride ==> (rebuilds + 1) * stride <= scrolled + Distance(from, to)
  {
    assert (rebuilds + 1) * stride == rebuilds * stride + stride;
  }

  /** What one frame does to the account. */
  lemma FramePays(l: List, f: List, stride: int, rebuilt: bool)
    requires Paid(l, stride)
    requires f.scrolled == l.scrolled + Distance(l.view.visible.start, f.view.visible.start)
    requires if rebuilt then f.built == f.view.visible && f.rebuilds == l.rebuilds + 1
             else f.built == l.built && f.rebuilds == l.rebuilds
    requires rebuilt ==> Distance(l.built.start, f.view.visible.start) >= stride
    ensures Paid(f, stride)
  {
    Payment(l.rebuilds, stride, l.built.start, l.view.visible.start, f.view.visible.start, l.scrolled);
  }

  lemma FrameCovers(l: List, count: u64, lo: u64, hi: u64, request: Request, notify: bool, shown: Range)
    requires Scrolling(l, count, lo, hi, request) && InRange(shown, lo, hi, count)
    ensures Covered(Frame(l, count, request, notify, shown))
  {
    FrameKeeps(l, count, lo, hi, request, notify, shown);
    if !NeedsRefresh(shown, Height(shown), count, l.mounted) {
      QuietFrameIsCovered(shown, Height(shown), count, l.mounted);
    }
  }

  /** A frame one stride past the last rebuild is a rebuild, while unmounted rows remain ahead. */
  lemma StrideRebuilds(l: List, count: u64, rows: u64, request: Request, notify: bool, shown: Range)
    requires Scrolling(l, count, rows, rows, request) && InRange(shown, rows, rows, count)
    requires l.built.start == l.view.visible.start && l.built.start + 2 * rows < count
    requires shown.start == l.built.start + rows - Guard(rows) + 1
    ensures var f := Frame(l, count, request, notify, shown);
            && f.rebuilds == l.rebuilds + 1 && f.scrolled == l.scrolled + rows - Guard(rows) + 1
            && f.built == f.view.visible == shown
  {
    FrameKeeps(l, count, rows, rows, request, notify, shown);
    RebuildTakesStride(l.built, shown, rows, rows, count);
  }

  /** The lists a run of frames goes through, each showing from `lo` to `hi` rows, from a list just mounted. */
  ghost predicate IsScroll(
    lists: seq<List>, frames: seq<Range>, count: u64, lo: u64, hi: u64, request: Request, notify: bool) {
    && Draws(lists, frames, count, request, notify)
    && Mounted(lists[0], count) && Stale(lists[0].view, request) && 0 < lo <= lists[0].view.rows <= hi
    && forall i | 0 <= i < |frames| :: InRange(frames[i], lo, hi, count)
  }

  lemma MountedPays(l: List, count: u64, lo: u64, hi: u64, request: Request)
    requires Mounted(l, count) && Stale(l.view, request) && 0 < lo <= l.view.rows <= hi
    ensures Scrolling(l, count, lo, hi, request) && Paid(l, Stride(lo, hi)) && Covered(l)
  {
    WindowCovers(l.view, count);
  }

  lemma {:induction false} ScrollPays(
    lists: seq<List>, frames: seq<Range>, count: u64, lo: u64, hi: u64, request: Request, notify: bool, n: nat)
    requires IsScroll(lists, frames, count, lo, hi, request, notify) && n <= |frames|
    ensures Scrolling(lists[n], count, lo, hi, request) && Paid(lists[n], Stride(lo, hi))
  {
    if n == 0 {
      MountedPays(lists[0], count, lo, hi, request);
    } else {
      ScrollPays(lists, frames, count, lo, hi, request, notify, n - 1);
      FrameKeeps(lists[n - 1], count, lo, hi, request, notify, frames[n - 1]);
      RebuildTakesStride(lists[n - 1].built, frames[n - 1], lo, hi, count);
      assert DrawnAt(lists, frames, count, request, notify, n - 1);
      FramePays(lists[n - 1], lists[n], Stride(lo, hi),
                NeedsRefresh(frames[n - 1], Height(frames[n - 1]), count, lists[n - 1].mounted));
    }
  }

  /** On every run of frames, of any list up to the largest `u64`, each rebuild costs a stride of
      scrolling, and after every frame the rows on screen are mounted. */
  lemma RebuildsBounded(
    lists: seq<List>, frames: seq<Range>, count: u64, lo: u64, hi: u64, request: Request, notify: bool, n: nat)
    requires IsScroll(lists, frames, count, lo, hi, request, notify) && n <= |frames|
    ensures lists[n].rebuilds * (2 * lo - hi - Max(hi / 2, 1) + 1) <= lists[n].scrolled
    ensures Covered(lists[n])
  {
    ScrollPays(lists, frames, count, lo, hi, request, notify, n);
    if n == 0 {
      MountedPays(lists[0], count, lo, hi, request);
    } else {
      ScrollPays(lists, frames, count, lo, hi, request, notify, n - 1);
      assert DrawnAt(lists, frames, count, request, notify, n - 1);
      FrameCovers(lists[n - 1], count, lo, hi, request, notify, frames[n - 1]);
    }
  }

  /** So, when every frame shows as many rows, each costs them less the guard, and one row more. */
  lemma SteadyRebuildsBounded(
    lists: seq<List>, frames: seq<Range>, count: u64, rows: u64, request: Request, notify: bool, n: nat)
    requires IsScroll(lists, frames, count, rows, rows, request, notify) && n <= |frames|
    ensures lists[n].rebuilds * (rows - Max(rows / 2, 1) + 1) <= lists[n].scrolled
  {
    RebuildsBounded(lists, frames, count, rows, rows, request, notify, n);
    assert 2 * rows - rows - Max(rows / 2, 1) + 1 == rows - Max(rows / 2, 1) + 1;
  }

  /** The rows scrolled in `n` strides. */
  function Strides(n: nat, stride: int): int {
    if n == 0 then 0 else Strides(n - 1, stride) + stride
  }

  lemma {:induction false} StridesMultiply(n: nat, stride: int)
    ensures Strides(n, stride) == n * stride
  {
    if n > 0 {
      StridesMultiply(n - 1, stride);
      assert n * stride == (n - 1) * stride + stride;
    }
  }

  /** A frame that scrolls one stride forward, with unmounted rows ahead. */
  ghost predicate StridesForward(l: List, shown: Range, rows: u64, count: u64) {
    shown.start == l.view.visible.start + rows - Max(rows / 2, 1) + 1 && l.view.visible.start + 2 * rows < count
  }

  lemma StrideAt(
    lists: seq<List>, frames: seq<Range>, count: u64, rows: u64, request: Request, notify: bool, i: nat)
    requires IsScroll(lists, frames, count, rows, rows, request, notify) && i < |frames|
    requires lists[i].built.start == lists[i].view.visible.start && StridesForward(lists[i], frames[i], rows, count)
    ensures lists[i + 1].rebuilds == lists[i].rebuilds + 1
    ensures lists[i + 1].scrolled == lists[i].scrolled + rows - Guard(rows) + 1
    ensures lists[i + 1].built.start == lists[i + 1].view.visible.start
  {
    ScrollPays(lists, frames, count, rows, rows, request, notify, i);
    assert DrawnAt(lists, frames, count, request, notify, i);
    StrideRebuilds(lists[i], count, rows, request, notify, frames[i]);
  }

  /** The frame after list `i` shows it a stride on. */
  ghost predicate StridesAt(lists: seq<List>, frames: seq<Range>, count: u64, rows: u64, i: int) {
    0 <= i < |frames| && i < |lists| && StridesForward(lists[i], frames[i], rows, count)
  }

  /** A list rebuilt at each of `n` frames, a stride apart. */
  ghost predicate RebuiltEach(l: List, n: nat, stride: int) {
    l.rebuilds == n && l.scrolled == Strides(n, stride) && l.built.start == l.view.visible.start
  }

  lemma RebuiltOnceMore(l: List, l': List, n: nat, stride: int, k: nat)
    requires RebuiltEach(l, n, stride) && k == n + 1
    requires l'.rebuilds == l.rebuilds + 1 && l'.scrolled == l.scrolled + stride
    requires l'.built.start == l'.view.visible.start
    ensures RebuiltEach(l', k, stride)
  {
  }

  lemma {:induction false} EachStrideRebuilds(
    lists: seq<List>, frames: seq<Range>, count: u64, rows: u64, stride: int, request: Request, notify: bool, n: nat)
    requires IsScroll(lists, frames, count, rows, rows, request, notify) && n <= |frames|
    requires stride == rows - Max(rows / 2, 1) + 1
    requires forall i | 0 <= i < |frames| :: StridesAt(lists, frames, count, rows, i)
    ensures n < |lists| && RebuiltEach(lists[n], n, stride)
  {
    if n > 0 {
      EachStrideRebuilds(lists, frames, count, rows, stride, request, notify, n - 1);
      assert StridesAt(lists, frames, count, rows, n - 1);
      StrideAt(lists, frames, count, rows, request, notify, n - 1);
      RebuiltOnceMore(lists[n - 1], lists[n], n - 1, stride, n);
    }
  }

  /** The steady bound is attained: scrolling forward one stride a frame rebuilds on every frame, for as long
      as unmounted rows remain ahead. */
  lemma BoundIsTight(
    lists: seq<List>, frames: seq<Range>, count: u64, rows: u64, stride: int, request: Request, notify: bool, n: nat)
    requires IsScroll(lists, frames, count, rows, rows, request, notify) && n <= |frames|
    requires stride == rows - Max(rows / 2, 1) + 1
    requires forall i | 0 <= i < |frames| :: StridesAt(lists, frames, count, rows, i)
    ensures lists[n].rebuilds == n && lists[n].scrolled == n * stride
  {
    EachStrideRebuilds(lists, frames, count, rows, stride, request, notify, n);
    StridesMultiply(n, stride);
  }
}
