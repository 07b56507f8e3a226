/**
 * The iOS glue of the lazy list (`UIViewLazyList`): the gate that decides
 * which scroll events reach the scroll processor, the expansion of the update
 * processor's row commands into table-view row positions, and the table's
 * row count.
 *
 * UIKit and the two processors are not modelled as behaviour: every call the
 * list makes into them is appended to a log of `Call`s, and what UIKit reports
 * (the table's live content offset, the visible rows) enters as parameters of
 * the events that read it.
 */
module LazyList {
  import opened Common

  /** An `NSIndexPath` as a plain table uses it: a row (`item`, an NSInteger) in a section. */
  datatype IndexPath = IndexPath(item: int, section: int)

  /** One call the list makes into the scroll processor or into the table view. */
  datatype Call =
    | OnScrollToTop                                 // scrollProcessor.onScrollToTop()
    | OnUserScroll(first: int32, last: int32)       // scrollProcessor.onUserScroll(first, last)
    | SetContentOffset(y: real, animated: bool)     // super.setContentOffset(...)
    | ScrollToRow(path: IndexPath, animated: bool)  // tableView.scrollToRowAtIndexPath(path, Top, animated)
    | BeginUpdates                                  // tableView.beginUpdates()
    | InsertRowsAt(paths: seq<IndexPath>)           // tableView.insertRowsAtIndexPaths(paths, None)
    | DeleteRowsAt(paths: seq<IndexPath>)           // tableView.deleteRowsAtIndexPaths(paths, None)
    | EndUpdates                                    // tableView.endUpdates()

  // ---------------------------------------------------------------------------
  // Row commands

  /** The rows `lo until hi` of section 0, in ascending order. */
  function RowsUntil(lo: int, hi: int): (r: seq<IndexPath>)
    ensures |r| == if lo < hi then hi - lo else 0
    ensures forall k :: 0 <= k < |r| ==> r[k] == IndexPath(lo + k, 0)
    decreases hi - lo
  {
    if lo >= hi then [] else [IndexPath(lo, 0)] + RowsUntil(lo + 1, hi)
  }

  /**
   * The row positions `insertRows`/`deleteRows` hand to the table for
   * `(index, count)`: `index until index + count`, where the end is computed
   * with Kotlin's wrapping `Int` addition. Without overflow these are exactly
   * the `count` rows `index, ..., index + count - 1` of section 0 (none when
   * `count` is not positive). When the end exceeds `Int.MAX_VALUE` it wraps
   * below `index` and the range is empty; when it falls below
   * `Int.MIN_VALUE` it wraps to a large positive end, and the range runs from
   * `index` up to that end.
   */
  function RowPositions(index: int32, count: int32): (r: seq<IndexPath>)
    ensures MinInt32 <= index as int + count as int <= MaxInt32 ==>
      |r| == (if count > 0 then count as int else 0) &&
      forall k :: 0 <= k < |r| ==> r[k] == IndexPath(index as int + k, 0)
    ensures index as int + count as int > MaxInt32 ==> r == []
    ensures index as int + count as int < MinInt32 ==>
      |r| == count as int + 0x1_0000_0000 &&
      forall k :: 0 <= k < |r| ==> r[k] == IndexPath(index as int + k, 0)
  {
    RowsUntil(index as int, Wrap32(index as int + count as int) as int)
  }

  /**
   * `numberOfRowsInSection`: the table has a single section; asking for any
   * other section fails the `require`, otherwise the answer is the update
   * processor's current size.
   */
  function NumberOfRowsInSection(section: int, size: int32): (r: Result<int>)
    ensures r.Ok? <==> section == 0
    ensures r.Ok? ==> r.value == size as int
    ensures r.Err? ==> r.error == IllegalArgument(FailedRequirement)
  {
    if section != 0 then Err(IllegalArgument(FailedRequirement)) else Ok(size as int)
  }

  // ---------------------------------------------------------------------------
  // Visible rows

  /** `minOf { it.item.toInt() }`: the smallest visible row. */
  function MinOf(s: seq<int32>): (m: int32)
    requires |s| > 0
    ensures m in s
    ensures forall x :: x in s ==> m <= x
  {
    if |s| == 1 then s[0]
    else
      var rest := MinOf(s[1..]);
      assert forall x :: x in s ==> x == s[0] || x in s[1..];
      if s[0] <= rest then s[0] else rest
  }

  /** `maxOf { it.item.toInt() }`: the largest visible row. */
  function MaxOf(s: seq<int32>): (m: int32)
    requires |s| > 0
    ensures m in s
    ensures forall x :: x in s ==> x <= m
  {
    if |s| == 1 then s[0]
    else
      var rest := MaxOf(s[1..]);
      assert forall x :: x in s ==> x == s[0] || x in s[1..];
      if s[0] >= rest then s[0] else rest
  }

  /** The rows of the visible index paths, each NSInteger narrowed by `toInt()`. */
  function VisibleItems(paths: seq<IndexPath>): seq<int32>
  {
    seq(|paths|, k requires 0 <= k < |paths| => Wrap32(paths[k].item))
  }

  // ---------------------------------------------------------------------------
  // The list as a state machine

  /** What the list holds between events, and the calls it has made so far. */
  datatype ListState = ListState(
    ignoreScrollUpdates: bool,
    cachedFirstIndex: int32,
    cachedLastIndex: int32,
    calls: seq<Call>)

  /** The events the list reacts to. */
  datatype Event =
    | RequestContentOffset(currentY: real, y: real, animated: bool)
      // someone calls tableView.setContentOffset(y, animated) while UIKit reports contentOffset.y == currentY
    | ProgrammaticScroll(firstIndex: int32, animated: bool)
    | DidScroll(visibleRows: Option<seq<IndexPath>>)    // scrollViewDidScroll; indexPathsForVisibleRows
    | WillBeginDragging
    | DidEndScrollingAnimation
    | InsertRows(index: int32, count: int32)
    | DeleteRows(index: int32, count: int32)

  /** The state of a freshly created list. */
  const Initial: ListState := ListState(false, 0, 0, [])

  /** A request for y = 0 while the table is not at y = 0 reads as a scroll to top. */
  predicate IsScrollToTop(currentY: real, requestedY: real)
  {
    requestedY == 0.0 && currentY != 0.0
  }

  /** The reaction of the list to one event. */
  function Step(s: ListState, e: Event): ListState
  {
    match e
    case RequestContentOffset(currentY, y, animated) =>
      var top := IsScrollToTop(currentY, y);
      s.(ignoreScrollUpdates := s.ignoreScrollUpdates || top,
         calls := s.calls + (if top then [OnScrollToTop] else []) + [Call.SetContentOffset(y, animated)])
    case ProgrammaticScroll(firstIndex, animated) =>
      s.(ignoreScrollUpdates := animated,
         calls := s.calls + [ScrollToRow(IndexPath(firstIndex as int, 0), animated)])
    case DidScroll(visible) =>
      if s.ignoreScrollUpdates || visible.None? || |visible.value| == 0 then s
      else
        var items := VisibleItems(visible.value);
        var first, last := MinOf(items), MaxOf(items);
        s.(cachedFirstIndex := first, cachedLastIndex := last,
           calls := s.calls + [OnUserScroll(first, last)])
    case WillBeginDragging =>
      s.(ignoreScrollUpdates := false)
    case DidEndScrollingAnimation =>
      s.(ignoreScrollUpdates := false)
    case InsertRows(index, count) =>
      s.(calls := s.calls + [BeginUpdates, InsertRowsAt(RowPositions(index, count)), EndUpdates])
    case DeleteRows(index, count) =>
      s.(calls := s.calls + [BeginUpdates, DeleteRowsAt(RowPositions(index, count)), EndUpdates])
  }

  /** The reaction of the list to a sequence of events, in order. */
  function Run(s: ListState, events: seq<Event>): ListState
    decreases |events|
  {
    if events == [] then s else Run(Step(s, events[0]), events[1..])
  }

  /** One `scrollViewDidScroll` per frame, each with that frame's visible rows. */
  function DidScrolls(frames: seq<Option<seq<IndexPath>>>): (r: seq<Event>)
    ensures |r| == |frames|
    ensures forall k :: 0 <= k < |r| ==> r[k] == DidScroll(frames[k])
  {
    if frames == [] then [] else [DidScroll(frames[0])] + DidScrolls(frames[1..])
  }

  // ---------------------------------------------------------------------------
  // Invariant: what has been forwarded is ordered and matches the cache

  /** The last pair forwarded to `onUserScroll`, if any. */
  function LastForwarded(calls: seq<Call>): Option<(int32, int32)>
    decreases |calls|
  {
    if calls == [] then None
    else
      var c := calls[|calls| - 1];
      if c.OnUserScroll? then Some((c.first, c.last)) else LastForwarded(calls[..|calls| - 1])
  }

  /** Every forwarded pair is ordered, and the cache holds the last one forwarded. */
  ghost predicate Consistent(s: ListState)
  {
    (forall k :: 0 <= k < |s.calls| && s.calls[k].OnUserScroll? ==>
       s.calls[k].first <= s.calls[k].last) &&
    (LastForwarded(s.calls).Some? ==>
       LastForwarded(s.calls).value == (s.cachedFirstIndex, s.cachedLastIndex))
  }

  /** Appending calls that forward nothing leaves the last forwarded pair alone. */
  lemma {:induction false} LastForwardedSkips(calls: seq<Call>, extra: seq<Call>)
    requires forall k :: 0 <= k < |extra| ==> !extra[k].OnUserScroll?
    ensures LastForwarded(calls + extra) == LastForwarded(calls)
    decreases |extra|
  {
    if extra != [] {
      var n := |extra| - 1;
      assert (calls + extra)[|calls + extra| - 1] == extra[n] && !extra[n].OnUserScroll?;
      var all := calls + extra;
      assert all[..|all| - 1] == calls + extra[..n];
      assert LastForwarded(all) == LastForwarded(calls + extra[..n]);
      LastForwardedSkips(calls, extra[..n]);
    } else {
      assert calls + extra == calls;
    }
  }

  /** Every event keeps the list consistent. */
  lemma StepKeepsConsistent(s: ListState, e: Event)
    requires Consistent(s)
    ensures Consistent(Step(s, e))
  {
    var t := Step(s, e);
    match e
    case DidScroll(visible) =>
      if !(s.ignoreScrollUpdates || visible.None? || |visible.value| == 0) {
        assert t.calls[..|t.calls| - 1] == s.calls;
      }
    case _ =>
      var extra := t.calls[|s.calls|..];
      assert t.calls == s.calls + extra;
      LastForwardedSkips(s.calls, extra);
  }

  /** Any sequence of events keeps the list consistent. */
  lemma {:induction false} RunKeepsConsistent(s: ListState, events: seq<Event>)
    requires Consistent(s)
    ensures Consistent(Run(s, events))
    decreases |events|
  {
    if events != [] {
      StepKeepsConsistent(s, events[0]);
      RunKeepsConsistent(Step(s, events[0]), events[1..]);
    }
  }

  /**
   * From the initial state, after any events, every pair forwarded to
   * `onUserScroll` has first <= last and the cache equals the last one.
   */
  lemma InitialRunConsistent(events: seq<Event>)
    ensures var s := Run(Initial, events);
      (forall k :: 0 <= k < |s.calls| && s.calls[k].OnUserScroll? ==>
         s.calls[k].first <= s.calls[k].last) &&
      (LastForwarded(s.calls).Some? ==>
         LastForwarded(s.calls).value == (s.cachedFirstIndex, s.cachedLastIndex))
  {
    RunKeepsConsistent(Initial, events);
  }

  // ---------------------------------------------------------------------------
  // Suppression of scroll events

  /** While updates are ignored, no frame of scrolling changes anything. */
  lemma {:induction false} IgnoredFramesChangeNothing(s: ListState, frames: seq<Option<seq<IndexPath>>>)
    requires s.ignoreScrollUpdates
    ensures Run(s, DidScrolls(frames)) == s
    decreases |frames|
  {
    if frames != [] {
      var events := DidScrolls(frames);
      assert events[1..] == DidScrolls(frames[1..]);
      IgnoredFramesChangeNothing(s, frames[1..]);
    }
  }

  /**
   * An animated programmatic scroll, followed by any frames of scrolling
   * before the animation ends or a drag begins, forwards nothing: the only
   * call made is the scroll request itself.
   */
  lemma AnimatedScrollForwardsNothing(s: ListState, index: int32, frames: seq<Option<seq<IndexPath>>>)
    ensures var t := Run(s, [ProgrammaticScroll(index, true)] + DidScrolls(frames));
      t.calls == s.calls + [ScrollToRow(IndexPath(index as int, 0), true)] &&
      t.cachedFirstIndex == s.cachedFirstIndex && t.cachedLastIndex == s.cachedLastIndex
  {
    var events := [ProgrammaticScroll(index, true)] + DidScrolls(frames);
    assert events[1..] == DidScrolls(frames);
    IgnoredFramesChangeNothing(Step(s, ProgrammaticScroll(index, true)), frames);
  }

  /**
   * A scroll to top (a request for y = 0 away from y = 0), followed by any
   * frames of scrolling, reports `onScrollToTop` once and forwards nothing.
   */
  lemma ScrollToTopForwardsNothing(s: ListState, currentY: real, animated: bool, frames: seq<Option<seq<IndexPath>>>)
    requires currentY != 0.0
    ensures var t := Run(s, [RequestContentOffset(currentY, 0.0, animated)] + DidScrolls(frames));
      t.calls == s.calls + [OnScrollToTop, SetContentOffset(0.0, animated)] &&
      t.ignoreScrollUpdates &&
      t.cachedFirstIndex == s.cachedFirstIndex && t.cachedLastIndex == s.cachedLastIndex
  {
  }

  /** The events after which scroll updates are no longer ignored. */
  predicate Reopens(e: Event)
  {
    e.WillBeginDragging? || e.DidEndScrollingAnimation? || (e.ProgrammaticScroll? && !e.animated)
  }

  /**
   * Once scroll updates are ignored, they stay ignored until a drag begins,
   * a scroll animation ends or a non-animated programmatic scroll is made:
   * any other events forward nothing and leave the cache alone, whatever the
   * scroll frames say. In particular a non-animated scroll to top, after
   * which UIKit reports no end of animation, keeps forwarding off until one
   * of those events.
   */
  lemma {:induction false} GateStaysClosed(s: ListState, events: seq<Event>)
    requires s.ignoreScrollUpdates
    requires forall k :: 0 <= k < |events| ==> !Reopens(events[k])
    ensures var t := Run(s, events);
      t.ignoreScrollUpdates &&
      |s.calls| <= |t.calls| && t.calls[..|s.calls|] == s.calls &&
      (forall k :: |s.calls| <= k < |t.calls| ==> !t.calls[k].OnUserScroll?) &&
      t.cachedFirstIndex == s.cachedFirstIndex && t.cachedLastIndex == s.cachedLastIndex
    decreases |events|
  {
    if events != [] {
      var s1 := Step(s, events[0]);
      assert |s.calls| <= |s1.calls| && s1.calls[..|s.calls|] == s.calls;
      GateStaysClosed(s1, events[1..]);
      var t := Run(s1, events[1..]);
      assert t.calls[..|s.calls|] == t.calls[..|s1.calls|][..|s.calls|];
    } else {
      assert s.calls[..|s.calls|] == s.calls;
    }
  }

  /**
   * A drag that begins during a programmatic scroll re-enables forwarding at
   * once: the next frame with visible rows reaches `onUserScroll`.
   */
  lemma DragResumesForwarding(s: ListState, index: int32, rows: seq<IndexPath>)
    requires |rows| > 0
    ensures var items := VisibleItems(rows);
      Run(s, [ProgrammaticScroll(index, true), WillBeginDragging, DidScroll(Some(rows))]).calls ==
        s.calls + [ScrollToRow(IndexPath(index as int, 0), true), OnUserScroll(MinOf(items), MaxOf(items))]
  {
    var events := [ProgrammaticScroll(index, true), WillBeginDragging, DidScroll(Some(rows))];
    var s1 := Step(s, events[0]);
    var s2 := Step(s1, events[1]);
    assert events[1..][0] == events[1] && events[1..][1..] == [events[2]];
    assert Run(s, events) == Run(s2, [events[2]]);
    assert Run(s2, [events[2]]) == Step(s2, events[2]);
  }

  /**
   * A frame of scrolling forwards exactly one pair, the smallest and largest
   * visible row, when updates are not ignored and some rows are visible;
   * otherwise it changes nothing at all.
   */
  lemma DidScrollForwardsIff(s: ListState, visible: Option<seq<IndexPath>>)
    ensures var t := Step(s, DidScroll(visible));
      var forwards := !s.ignoreScrollUpdates && visible.Some? && |visible.value| > 0;
      (forwards ==>
         var items := VisibleItems(visible.value);
         MinOf(items) <= MaxOf(items) &&
         (forall x :: x in items ==> MinOf(items) <= x <= MaxOf(items)) &&
         t == s.(cachedFirstIndex := MinOf(items), cachedLastIndex := MaxOf(items),
                 calls := s.calls + [OnUserScroll(MinOf(items), MaxOf(items))])) &&
      (!forwards ==> t == s)
  {
  }

  /**
   * The same visible rows reported twice are forwarded twice: a pair equal
   * to the cached one is not dropped, only the cache update is skipped.
   */
  lemma RepeatedViewportForwardedTwice(s: ListState, rows: seq<IndexPath>)
    requires !s.ignoreScrollUpdates && |rows| > 0
    ensures var items := VisibleItems(rows);
      var t := Run(s, [DidScroll(Some(rows)), DidScroll(Some(rows))]);
      t.calls == s.calls + [OnUserScroll(MinOf(items), MaxOf(items)), OnUserScroll(MinOf(items), MaxOf(items))] &&
      t.cachedFirstIndex == MinOf(items) && t.cachedLastIndex == MaxOf(items)
  {
    var e := DidScroll(Some(rows));
    var s1 := Step(s, e);
    assert [e, e][1..] == [e];
    assert Run(s, [e, e]) == Run(s1, [e]) == Step(s1, e);
  }

  /** Row commands touch neither the scroll gate nor the cache. */
  lemma RowCommandsLeaveScrollState(s: ListState, index: int32, count: int32)
    ensures var t := Step(s, InsertRows(index, count));
      t.ignoreScrollUpdates == s.ignoreScrollUpdates &&
      t.cachedFirstIndex == s.cachedFirstIndex && t.cachedLastIndex == s.cachedLastIndex
    ensures var t := Step(s, DeleteRows(index, count));
      t.ignoreScrollUpdates == s.ignoreScrollUpdates &&
      t.cachedFirstIndex == s.cachedFirstIndex && t.cachedLastIndex == s.cachedLastIndex
  {
  }

  // ---------------------------------------------------------------------------
  // The list itself

  /**
   * `UIViewLazyList` with its table view override, its scroll processor
   * override, its update processor's row commands and its table delegate.
   * `ignoreScrollUpdates` belongs to the list, the cached pair to the
   * delegate, the content offset to the table view.
   */
  class UIViewLazyList {
    var ignoreScrollUpdates: bool
    var cachedFirstIndex: int32
    var cachedLastIndex: int32
    var calls: seq<Call>

    /** The list as a value. */
    function State(): ListState
      reads this
    {
      ListState(ignoreScrollUpdates, cachedFirstIndex, cachedLastIndex, calls)
    }

    ghost predicate Valid()
      reads this
    {
      Consistent(State())
    }

    constructor ()
      ensures Valid() && State() == Initial
    {
      ignoreScrollUpdates := false;
      cachedFirstIndex, cachedLastIndex := 0, 0;
      calls := [];
    }

    /**
     * The table view's `setContentOffset` override. `currentY` is the
     * table's live `contentOffset.y` as UIKit reports it at the call. A request
     * for y = 0 while the table is not at y = 0 is taken as a programmatic
     * scroll to top: scroll updates are ignored from then on and the scroll
     * processor hears `onScrollToTop` once. In every case the request is then
     * passed on to UIKit.
     */
    method SetContentOffset(currentY: real, y: real, animated: bool)
      requires Valid()
      modifies this
      ensures Valid()
      ensures State() == Step(old(State()), RequestContentOffset(currentY, y, animated))
      ensures ignoreScrollUpdates == (old(ignoreScrollUpdates) || IsScrollToTop(currentY, y))
      ensures calls == old(calls) + (if IsScrollToTop(currentY, y) then [OnScrollToTop] else [])
                                  + [Call.SetContentOffset(y, animated)]
      ensures cachedFirstIndex == old(cachedFirstIndex) && cachedLastIndex == old(cachedLastIndex)
    {
      ghost var s := State();
      if y == 0.0 && currentY != 0.0 {
        ignoreScrollUpdates := true;
        calls := calls + [OnScrollToTop];
      }
      calls := calls + [Call.SetContentOffset(y, animated)];
      StepKeepsConsistent(s, RequestContentOffset(currentY, y, animated));
    }

    /**
     * The scroll processor's `programmaticScroll`: updates are ignored exactly
     * when the scroll is animated, and that is settled before the table is
     * asked to scroll `firstIndex` to the top.
     */
    method ProgrammaticScroll(firstIndex: int32, animated: bool)
      requires Valid()
      modifies this
      ensures Valid()
      ensures State() == Step(old(State()), Event.ProgrammaticScroll(firstIndex, animated))
      ensures ignoreScrollUpdates == animated
      ensures calls == old(calls) + [ScrollToRow(IndexPath(firstIndex as int, 0), animated)]
      ensures cachedFirstIndex == old(cachedFirstIndex) && cachedLastIndex == old(cachedLastIndex)
    {
      ghost var s := State();
      ignoreScrollUpdates := animated;
      calls := calls + [ScrollToRow(IndexPath(firstIndex as int, 0), animated)];
      StepKeepsConsistent(s, Event.ProgrammaticScroll(firstIndex, animated));
    }

    /**
     * `scrollViewDidScroll`: dropped while updates are ignored or when no row
     * is visible; otherwise the smallest and largest visible rows are
     * forwarded to `onUserScroll`, and cached unless they equal the cache.
     */
    method ScrollViewDidScroll(visibleRows: Option<seq<IndexPath>>)
      requires Valid()
      modifies this
      ensures Valid()
      ensures State() == Step(old(State()), DidScroll(visibleRows))
      ensures old(ignoreScrollUpdates) || visibleRows.None? || |visibleRows.value| == 0 ==>
        State() == old(State())
      ensures !old(ignoreScrollUpdates) && visibleRows.Some? && |visibleRows.value| > 0 ==>
        var items := VisibleItems(visibleRows.value);
        calls == old(calls) + [OnUserScroll(MinOf(items), MaxOf(items))] &&
        cachedFirstIndex == MinOf(items) && cachedLastIndex == MaxOf(items) &&
        cachedFirstIndex <= cachedLastIndex
      ensures ignoreScrollUpdates == old(ignoreScrollUpdates)
    {
      ghost var s := State();
      StepKeepsConsistent(s, DidScroll(visibleRows));
      if ignoreScrollUpdates {
        return;  // only user scrolls are forwarded
      }
      if visibleRows.None? {
        return;
      }
      if |visibleRows.value| == 0 {
        return;
      }
      var items := VisibleItems(visibleRows.value);
      var firstIndex := MinOf(items);
      var lastIndex := MaxOf(items);
      if !(firstIndex == cachedFirstIndex && lastIndex == cachedLastIndex) {
        cachedFirstIndex := firstIndex;
        cachedLastIndex := lastIndex;
      }
      // A pair equal to the cached one is forwarded all the same.
      calls := calls + [OnUserScroll(firstIndex, lastIndex)];
    }

    /** `scrollViewWillBeginDragging`: a drag ends any programmatic scroll. */
    method ScrollViewWillBeginDragging()
      requires Valid()
      modifies this
      ensures Valid()
      ensures State() == Step(old(State()), WillBeginDragging)
      ensures !ignoreScrollUpdates
      ensures calls == old(calls)
      ensures cachedFirstIndex == old(cachedFirstIndex) && cachedLastIndex == old(cachedLastIndex)
    {
      ghost var s := State();
      ignoreScrollUpdates := false;
      StepKeepsConsistent(s, WillBeginDragging);
    }

    /** `scrollViewDidEndScrollingAnimation`: the programmatic scroll is over. */
    method ScrollViewDidEndScrollingAnimation()
      requires Valid()
      modifies this
      ensures Valid()
      ensures State() == Step(old(State()), DidEndScrollingAnimation)
      ensures !ignoreScrollUpdates
      ensures calls == old(calls)
      ensures cachedFirstIndex == old(cachedFirstIndex) && cachedLastIndex == old(cachedLastIndex)
    {
      ghost var s := State();
      ignoreScrollUpdates := false;
      StepKeepsConsistent(s, DidEndScrollingAnimation);
    }

    /**
     * The update processor's `insertRows`: one begin/end bracket around a
     * single insertion of the rows `index until index + count` of section 0.
     */
    method InsertRows(index: int32, count: int32)
      requires Valid()
      modifies this
      ensures Valid()
      ensures State() == Step(old(State()), Event.InsertRows(index, count))
      ensures calls == old(calls) + [BeginUpdates, InsertRowsAt(RowPositions(index, count)), EndUpdates]
      ensures ignoreScrollUpdates == old(ignoreScrollUpdates)
      ensures cachedFirstIndex == old(cachedFirstIndex) && cachedLastIndex == old(cachedLastIndex)
    {
      ghost var s := State();
      calls := calls + [BeginUpdates];
      calls := calls + [InsertRowsAt(RowPositions(index, count))];
      calls := calls + [EndUpdates];
      assert calls == s.calls + [BeginUpdates, InsertRowsAt(RowPositions(index, count)), EndUpdates];
      StepKeepsConsistent(s, Event.InsertRows(index, count));
    }

    /**
     * The update processor's `deleteRows`: one begin/end bracket around a
     * single deletion of the rows `index until index + count` of section 0.
     */
    method DeleteRows(index: int32, count: int32)
      requires Valid()
      modifies this
      ensures Valid()
      ensures State() == Step(old(State()), Event.DeleteRows(index, count))
      ensures calls == old(calls) + [BeginUpdates, DeleteRowsAt(RowPositions(index, count)), EndUpdates]
      ensures ignoreScrollUpdates == old(ignoreScrollUpdates)
      ensures cachedFirstIndex == old(cachedFirstIndex) && cachedLastIndex == old(cachedLastIndex)
    {
      ghost var s := State();
      calls := calls + [BeginUpdates];
      calls := calls + [DeleteRowsAt(RowPositions(index, count))];
      calls := calls + [EndUpdates];
      assert calls == s.calls + [BeginUpdates, DeleteRowsAt(RowPositions(index, count)), EndUpdates];
      StepKeepsConsistent(s, Event.DeleteRows(index, count));
    }
  }
}
