/** The viewport of a virtual list (`crates/host/src/rows.rs`): which rows it shows, which rows are
    worth building, and when the built rows must be replaced. */
module Rows {

  import opened Wrappers

  const U64_MAX: int := 0xFFFF_FFFF_FFFF_FFFF

  type u64 = x: int | 0 <= x <= U64_MAX

  function Min(a: int, b: int): int {
    if a < b then a else b
  }

  function Max(a: int, b: int): int {
    if a < b then b else a
  }

  function Distance(a: int, b: int): nat {
    if a < b then b - a else a - b
  }

  function SaturatingAdd(a: u64, b: u64): u64 {
    Min(a + b, U64_MAX)
  }

  function SaturatingSub(a: u64, b: u64): u64 {
    Max(a - b, 0)
  }

  datatype Align = Start | Center | End

  datatype Range = Range(start: u64, end: u64)

  datatype RowsEvent = RowsEvent(refresh: bool, report: bool, start: u64, end: u64)

  /** A scroll request held in application state: a row, where to place it (0 asks for nothing, 1 to 3
      name an alignment, anything else the nearest one), and the serial that makes it new. */
  datatype Request = Request(row: u64, align: nat, serial: u64)

  datatype View = View(
    rows: u64,
    visible: Range,
    applied: Option<u64>,
    reported: Option<Range>,
    pendingScroll: Option<(u64, Align)>)

  function NewView(rows: u64): View {
    var rows := Max(rows, 1);
    View(rows, Range(0, rows), None, None, None)
  }

  function Clamped(v: View, count: u64): View {
    var start := Min(v.visible.start, SaturatingSub(count, v.rows));
    v.(visible := Range(start, Min(SaturatingAdd(start, v.rows), count)))
  }

  /** Where a request places its row, or nothing when a nearest request finds it in view. */
  function Placement(v: View, row: u64, align: nat): Option<Align> {
    if align == 1 then Some(Start)
    else if align == 2 then Some(Center)
    else if align == 3 then Some(End)
    else if row < v.visible.start then Some(Start)
    else if row >= v.visible.end then Some(End)
    else None
  }

  function PlacedStart(row: u64, rows: u64, count: u64, placed: Align): u64
    requires row < count
  {
    var start := match placed
      case Start => row
      case Center => SaturatingSub(row, rows / 2)
      case End => SaturatingSub(row + 1, rows);
    Min(start, SaturatingSub(count, rows))
  }

  /** A request that has been applied already, or asks for nothing. */
  predicate Stale(v: View, request: Request) {
    request.align == 0 || v.applied == Some(request.serial)
  }

  function Requested(v: View, count: u64, request: Request): View {
    if Stale(v, request) then v
    else
      var applied := v.(applied := Some(request.serial));
      if count == 0 then applied
      else
        var row := Min(request.row, count - 1);
        match Placement(v, row, request.align)
        case None => applied
        case Some(placed) =>
          var start := PlacedStart(row, v.rows, count, placed);
          applied.(visible := Range(start, Min(SaturatingAdd(start, v.rows), count)),
                   pendingScroll := Some((row, placed)))
  }

  /** What is mounted: as much again before and after what is on screen, cut off at the ends of the list. */
  function WindowOf(v: View, count: u64): Range {
    var start := SaturatingSub(v.visible.start, v.rows);
    var end := Min(SaturatingAdd(v.visible.end, v.rows), count);
    Range(Min(start, end), end)
  }

  function Guard(rows: u64): u64 {
    Max(rows / 2, 1)
  }

  predicate NeedsRefresh(visible: Range, rows: u64, count: u64, mounted: Range) {
    || (mounted.start > 0 && visible.start < SaturatingAdd(mounted.start, Guard(rows)))
    || (mounted.end < count && SaturatingAdd(visible.end, Guard(rows)) > mounted.end)
  }

  function Observed(v: View, visible: Range, count: u64, mounted: Range, notify: bool): (View, Option<RowsEvent>)
    requires visible.start <= visible.end
  {
    if v.pendingScroll.Some? then (v, None)
    else
      var rows := Max(visible.end - visible.start, 1);
      var refresh := NeedsRefresh(visible, rows, count, mounted);
      var report := notify && v.reported != Some(visible);
      (v.(rows := rows, visible := visible, reported := if report then Some(visible) else v.reported),
       if refresh || report then Some(RowsEvent(refresh, report, visible.start, visible.end)) else None)
  }

  /** One list's viewport, updated in place. */
  class Viewport {
    var rows: u64
    var visible: Range
    var applied: Option<u64>
    var reported: Option<Range>
    var pendingScroll: Option<(u64, Align)>

    ghost function Value(): View
      reads this
    {
      View(rows, visible, applied, reported, pendingScroll)
    }

    constructor (estimate: u64)
      ensures Value() == NewView(estimate)
    {
      rows := Max(estimate, 1);
      visible := Range(0, Max(estimate, 1));
      applied, reported, pendingScroll := None, None, None;
    }

    method Clamp(count: u64)
      modifies this
      ensures Value() == Clamped(old(Value()), count)
    {
      var start := Min(visible.start, SaturatingSub(count, rows));
      visible := Range(start, Min(SaturatingAdd(start, rows), count));
    }

    method ApplyRequest(count: u64, row: u64, align: nat, serial: u64)
      modifies this
      ensures Value() == Requested(old(Value()), count, Request(row, align, serial))
    {
      if align == 0 || applied == Some(serial) {
        return;
      }
      applied := Some(serial);
      if count == 0 {
        return;
      }
      var row := Min(row, count - 1);
      var placed: Align;
      if align == 1 {
        placed := Start;
      } else if align == 2 {
        placed := Center;
      } else if align == 3 {
        placed := End;
      } else if row < visible.start {
        placed := Start;
      } else if row >= visible.end {
        placed := End;
      } else {
        return;
      }
      var start := PlacedStart(row, rows, count, placed);
      visible := Range(start, Min(SaturatingAdd(start, rows), count));
      pendingScroll := Some((row, placed));
    }

    function Window(count: u64): (window: Range)
      reads this
      ensures window == WindowOf(Value(), count)
    {
      var start := SaturatingSub(visible.start, rows);
      var end := Min(SaturatingAdd(visible.end, rows), count);
      Range(Min(start, end), end)
    }

    method Observe(shown: Range, count: u64, mounted: Range, notify: bool) returns (event: Option<RowsEvent>)
      requires shown.start <= shown.end
      modifies this
      ensures (Value(), event) == Observed(old(Value()), shown, count, mounted, notify)
    {
      if pendingScroll.Some? {
        return None;
      }
      rows := Max(shown.end - shown.start, 1);
      visible := shown;
      var guard := Max(rows / 2, 1);
      var refresh :=
        || (mounted.start > 0 && visible.start < SaturatingAdd(mounted.start, guard))
        || (mounted.end < count && SaturatingAdd(visible.end, guard) > mounted.end);
      var report := notify && reported != Some(shown);
      if report {
        reported := Some(shown);
      }
      event := if refresh || report then Some(RowsEvent(refresh, report, shown.start, shown.end)) else None;
    }
  }

  /** What a render does to a viewport: clamp it to the list, then apply a new request. */
  function Rendered(v: View, count: u64, request: Request): View {
    Requested(Clamped(v, count), count, request)
  }

  /** The viewports of a window's lists, by the instance of each list. */
  class Viewports {
    var entries: map<u64, Viewport>

    ghost predicate Valid()
      reads this
    {
      forall i, j | i in entries && j in entries && i != j :: entries[i] != entries[j]
    }

    ghost function Value(instance: u64): Option<View>
      reads this, entries.Values
    {
      if instance in entries then Some(entries[instance].Value()) else None
    }

    constructor ()
      ensures Valid() && entries == map[]
    {
      entries := map[];
    }

    /** The rows a list should mount, applying any new scroll request. */
    method Window(instance: u64, count: u64, estimate: u64, request: Request) returns (window: Range)
      requires Valid()
      modifies this, entries.Values
      ensures Valid() && fresh(entries.Values - old(entries.Values))
      ensures var before := old(Value(instance));
              var v := Rendered(if before.Some? then before.value else NewView(estimate), count, request);
              Value(instance) == Some(v) && window == WindowOf(v, count)
      ensures forall other | other != instance :: Value(other) == old(Value(other))
    {
      if instance !in entries {
        var created := new Viewport(estimate);
        entries := entries[instance := created];
      }
      var viewport := entries[instance];
      viewport.Clamp(count);
      viewport.ApplyRequest(count, request.row, request.align, request.serial);
      window := viewport.Window(count);
    }

    /** The requested position the native list must take up, once. */
    method TakePendingScroll(instance: u64) returns (scroll: Option<(u64, Align)>)
      requires Valid()
      modifies entries.Values
      ensures scroll == if instance in entries then old(entries[instance].pendingScroll) else None
      ensures Value(instance) == if instance in entries
                                 then Some(old(Value(instance)).value.(pendingScroll := None)) else None
      ensures forall other | other != instance :: Value(other) == old(Value(other))
    {
      scroll := None;
      if instance in entries {
        var viewport := entries[instance];
        scroll := viewport.pendingScroll;
        viewport.pendingScroll := None;
      }
    }

    method Observe(instance: u64, shown: Range, count: u64, mounted: Range, notify: bool)
      returns (event: Option<RowsEvent>)
      requires Valid() && shown.start <= shown.end
      modifies entries.Values
      ensures instance !in entries ==> event == None && Value(instance) == None
      ensures instance in entries ==>
                var (v, e) := Observed(old(Value(instance)).value, shown, count, mounted, notify);
                Value(instance) == Some(v) && event == e
      ensures forall other | other != instance :: Value(other) == old(Value(other))
    {
      event := None;
      if instance in entries {
        event := entries[instance].Observe(shown, count, mounted, notify);
      }
    }
  }
}
