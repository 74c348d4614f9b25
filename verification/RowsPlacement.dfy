/** Where a viewport ends up: inside its list, on the requested row, and as close as the rule of its
    alignment allows. */
module RowsPlacement {

  import opened Wrappers
  import opened Rows

  /** The viewport lies inside the list and shows as many rows as the list allows it. */
  ghost predicate Settled(v: View, count: u64) {
    v.visible.start + Min(v.rows, count) == v.visible.end <= count
  }

  /** A viewport of `rows` rows could start at `start`. */
  ghost predicate CanStart(start: int, rows: u64, count: u64) {
    0 <= start && start + Min(rows, count) <= count
  }

  /** A viewport of `rows` rows could start at `start` and show `row`. */
  ghost predicate CanShow(start: int, row: u64, rows: u64, count: u64) {
    CanStart(start, rows, count) && start <= row < start + Min(rows, count)
  }

  /** Clamping settles the viewport, moves it no further than it must, and changes nothing else. */
  lemma ClampSettles(v: View, count: u64)
    ensures Settled(Clamped(v, count), count)
    ensures Clamped(v, count) == v.(visible := Clamped(v, count).visible)
    ensures Settled(v, count) ==> Clamped(v, count) == v
    ensures forall start | CanStart(start, v.rows, count) ::
              Distance(Clamped(v, count).visible.start, v.visible.start) <= Distance(start, v.visible.start)
  {
  }

  /** A new request on a settled viewport shows its row, clamped to the list, in a settled viewport. */
  lemma RequestShows(v: View, count: u64, request: Request)
    requires Settled(v, count) && v.rows > 0 && count > 0 && !Stale(v, request)
    ensures var r := Requested(v, count, request);
            && Settled(r, count) && r.rows == v.rows && r.applied == Some(request.serial)
            && CanShow(r.visible.start, Min(request.row, count - 1), v.rows, count)
            && (r.pendingScroll.Some? && r.pendingScroll != v.pendingScroll ==>
                  r.pendingScroll.value.0 == Min(request.row, count - 1))
  {
  }

  /** Each alignment is an optimum over every viewport that shows the row: a start alignment puts the
      row highest, an end alignment lowest, a centre alignment nearest half a viewport down, and the
      nearest alignment moves the viewport the least, asking for a scroll only when it moves. */
  lemma RequestIsOptimal(v: View, count: u64, request: Request, start: int)
    requires Settled(v, count) && v.rows > 0 && count > 0 && !Stale(v, request)
    requires CanShow(start, Min(request.row, count - 1), v.rows, count)
    ensures var r := Requested(v, count, request);
            var row := Min(request.row, count - 1);
            && (request.align == 1 ==> start <= r.visible.start)
            && (request.align == 2 ==> Distance(r.visible.start + v.rows / 2, row) <= Distance(start + v.rows / 2, row))
            && (request.align == 3 ==> r.visible.start <= start)
            && (request.align > 3 ==>
                  && Distance(r.visible.start, v.visible.start) <= Distance(start, v.visible.start)
                  && (r.pendingScroll == v.pendingScroll || r.pendingScroll.Some?)
                  && (CanShow(v.visible.start, row, v.rows, count) <==> r == v.(applied := Some(request.serial))))
  {
    RequestShows(v, count, request);
  }

  /** Asking for the window again with the same arguments changes nothing. */
  lemma RenderIsIdempotent(v: View, count: u64, request: Request)
    requires v.rows > 0
    ensures var r := Rendered(v, count, request);
            Rendered(r, count, request) == r && WindowOf(Rendered(r, count, request), count) == WindowOf(r, count)
  {
    var c := Clamped(v, count);
    ClampSettles(v, count);
    var r := Rendered(v, count, request);
    if !Stale(c, request) && count > 0 {
      RequestShows(c, count, request);
    }
    assert Settled(r, count);
    ClampSettles(r, count);
  }

  /** A list seen for the first time, with nothing asked of it, mounts twice its estimated height from the top. */
  lemma FirstWindow(estimate: u64, count: u64, row: u64, serial: u64)
    ensures var v := Rendered(NewView(estimate), count, Request(row, 0, serial));
            && WindowOf(v, count) == Range(0, Min(2 * Max(estimate, 1), count))
            && v.visible == Range(0, Min(Max(estimate, 1), count)) && v.rows == Max(estimate, 1)
            && v.pendingScroll == None && v.reported == None && v.applied == None
  {
  }

  /** A request is taken up once: after its scroll has been taken and the list scrolled on, rendering with the
      same request leaves the list where it was scrolled to and asks for no scroll; a later serial is new. */
  lemma AppliedOnce(v: View, count: u64, request: Request, shown: Range, mounted: Range, notify: bool, later: u64)
    requires v.rows > 0 && count > 0 && request.align != 0
    requires shown.start < shown.end <= count
    ensures var asked := Rendered(v, count, request).(pendingScroll := None);
            var scrolled := Observed(asked, shown, count, mounted, notify).0;
            && Rendered(scrolled, count, request) == scrolled
            && (later != request.serial ==>
                  Rendered(scrolled, count, request.(serial := later)).applied == Some(later))
  {
    ClampSettles(v, count);
    var asked := Rendered(v, count, request).(pendingScroll := None);
    var scrolled := Observed(asked, shown, count, mounted, notify).0;
    assert asked.applied == Some(request.serial) == scrolled.applied;
  }

  /** The window of a settled viewport is the viewport and one more viewport either side, as far as
      the list goes. */
  lemma WindowCovers(v: View, count: u64)
    requires Settled(v, count)
    ensures var w := WindowOf(v, count);
            && w.start == Max(0, v.visible.start - v.rows) && w.end == Min(count, v.visible.end + v.rows)
            && w.start <= v.visible.start && v.visible.end <= w.end
  {
  }

  /** A frame that shows what the window was built for asks for no rebuild, whatever the list's size and
      however wrong the estimate of its height; the estimate becomes the rows shown. */
  lemma MountedWindowIsQuiet(v: View, count: u64, mounted: Range, notify: bool)
    requires Settled(v, count) && v.rows > 0
    requires v.pendingScroll == None && mounted == WindowOf(v, count)
    ensures var (after, event) := Observed(v, v.visible, count, mounted, notify);
            && after.visible == v.visible && after.rows == Max(Min(v.rows, count), 1)
            && (event.Some? ==> !event.value.refresh)
  {
    WindowCovers(v, count);
  }

  /** A frame that shows something asks for a rebuild exactly when, on a side where the list goes on, fewer rows
      than half a viewport, or than one, remain mounted beyond it. */
  lemma RefreshExactly(v: View, visible: Range, count: u64, mounted: Range, notify: bool)
    requires visible.start < visible.end <= count && mounted.end <= count && v.pendingScroll == None
    ensures var event := Observed(v, visible, count, mounted, notify).1;
            var guard := Max((visible.end - visible.start) / 2, 1);
            (event.Some? && event.value.refresh) <==>
              || (0 < mounted.start && visible.start - mounted.start < guard)
              || (mounted.end < count && mounted.end - visible.end < guard)
  {
  }

  /** Nobody hears of a frame that asks for no rebuild, but a listener of rows it has not heard of last. */
  lemma HeardExactly(v: View, visible: Range, count: u64, mounted: Range, notify: bool)
    requires visible.start <= visible.end && v.pendingScroll == None
    ensures var event := Observed(v, visible, count, mounted, notify).1;
            && ((event.Some? && event.value.report) <==> notify && v.reported != Some(visible))
            && (event.Some? ==> event.value.refresh || event.value.report)
  {
  }

  /** A frame that asks for no rebuild shows only mounted rows. */
  lemma QuietFrameIsCovered(visible: Range, rows: u64, count: u64, mounted: Range)
    requires visible.start <= visible.end <= count
    requires mounted.end <= count
    requires !NeedsRefresh(visible, rows, count, mounted)
    ensures mounted.start <= visible.start && visible.end <= mounted.end
  {
  }

  /** Of two viewports showing `row`, the one at `start` puts it at least as near the named edge, or as near
      half a viewport down. */
  ghost predicate Nearer(edge: Align, start: int, other: int, row: u64, rows: u64) {
    match edge
    case Start => other <= start
    case Center => Distance(start + rows / 2, row) <= Distance(other + rows / 2, row)
    case End => start <= other
  }

  /** The native list and the viewport agree on where a request goes: whenever the viewport moves, the list is
      asked for the clamped row at some edge, and no viewport showing the row puts it nearer that edge than
      the one mounted; nothing is asked exactly when a nearest request finds its row in view. */
  lemma ScrollLandsOnViewport(v: View, count: u64, request: Request, other: int)
    requires Settled(v, count) && v.rows > 0 && count > 0 && !Stale(v, request)
    requires CanShow(other, Min(request.row, count - 1), v.rows, count)
    ensures var asked, row := v.(pendingScroll := None), Min(request.row, count - 1);
            var r := Requested(asked, count, request);
            && (r.pendingScroll == None <==>
                  request.align > 3 && CanShow(v.visible.start, row, v.rows, count))
            && (r.pendingScroll == None ==> r.visible == v.visible)
            && (r.pendingScroll.Some? ==>
                  && r.pendingScroll.value.0 == row
                  && Nearer(r.pendingScroll.value.1, r.visible.start, other, row, v.rows))
  {
  }

  /** A listener hears each range it is shown once: a frame is reported exactly when it differs from the
      last one reported, and repeating a frame reports nothing. */
  lemma HeardOnce(v: View, shown: Range, count: u64, mounted: Range, again: Range)
    requires shown.start <= shown.end && v.pendingScroll == None
    ensures var (after, event) := Observed(v, shown, count, mounted, true);
            && ((event.Some? && event.value.report) <==> v.reported != Some(shown))
            && (event.Some? ==> event.value.start == shown.start && event.value.end == shown.end)
            && after.reported == Some(shown)
            && var (_, repeated) := Observed(after, shown, count, again, true);
               repeated.Some? ==> !repeated.value.report
  {
  }

  /** A frame drawn before a requested scroll is taken up changes nothing and reports nothing, whenever a
      scroll was asked; and once it is taken up, the frame that shows where it lands asks for no rebuild of the
      rows mounted for it. */
  lemma PendingScrollHolds(v: View, count: u64, request: Request, shown: Range, mounted: Range, notify: bool)
    requires Settled(v, count) && v.rows > 0 && count > 0 && !Stale(v, request) && shown.start <= shown.end
    requires request.align > 3 ==> !CanShow(v.visible.start, Min(request.row, count - 1), v.rows, count)
    ensures var r := Requested(v, count, request);
            var landed := r.(pendingScroll := None);
            && Observed(r, shown, count, mounted, notify) == (r, None)
            && r.visible.start <= r.visible.end
            && var (_, event) := Observed(landed, r.visible, count, WindowOf(r, count), notify);
               event.Some? ==> !event.value.refresh
  {
    RequestShows(v, count, request);
    var landed := Requested(v, count, request).(pendingScroll := None);
    MountedWindowIsQuiet(landed, count, WindowOf(landed, count), notify);
  }
}
