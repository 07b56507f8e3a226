/**
 * `UIViewRefreshableLazyList`: the pull-to-refresh part of the lazy list.
 * It adds a `UIRefreshControl` to the table and keeps it in step with the
 * `refreshing` and `onRefresh` properties its user sets.
 *
 * The refresh control's own state is its `refreshing` flag; whether the table
 * uses the control is the table's `refreshControl` property. Every call made
 * into UIKit or into the user's callback is recorded.
 */
module RefreshableLazyList {
  import opened Common

  /** The identity of an `onRefresh` callback. */
  type CallbackId = nat

  /** The four 8-bit channels of a color packed as 0xAARRGGBB. */
  datatype Channels = Channels(alpha: bv8, red: bv8, green: bv8, blue: bv8)

  /** One call made into UIKit or into the user's callback. */
  datatype ControlCall =
    | BeginRefreshing                  // refreshControl.beginRefreshing()
    | EndRefreshing                    // refreshControl.endRefreshing()
    | SetTableRefreshControl           // tableView.refreshControl = refreshControl
    | RemoveFromSuperview              // refreshControl.removeFromSuperview()
    | InvokeOnRefresh(cb: CallbackId)  // onRefresh?.invoke()
    | SetTintColor(color: Channels)    // refreshControl.tintColor = UIColor(color)

  /**
   * The channels `UIColor(UInt)` extracts from a packed color, before each is
   * scaled to [0, 1]; together they are the color again.
   */
  function ColorChannels(color: bv32): (c: Channels)
    ensures (c.alpha as bv32 << 24) | (c.red as bv32 << 16) | (c.green as bv32 << 8) | c.blue as bv32 == color
  {
    Channels(
      ((color & 0xFF00_0000) >> 24) as bv8,
      ((color & 0x00FF_0000) >> 16) as bv8,
      ((color & 0x0000_FF00) >> 8) as bv8,
      (color & 0x0000_00FF) as bv8)
  }

  /** The refreshable list as a value. */
  datatype RefreshState = RefreshState(
    onRefresh: Option<CallbackId>,
    refreshing: bool,    // refreshControl.refreshing
    installed: bool,     // tableView.refreshControl == refreshControl
    calls: seq<ControlCall>)

  /** What can happen to the refreshable list. */
  datatype RefreshEvent =
    | Refreshing(refreshing: bool)
    | OnRefresh(onRefresh: Option<CallbackId>)
    | UserPull                         // the user pulls the control: UIKit starts it and fires valueChanged
    | PullRefreshContentColor(color: bv32)

  const Initial: RefreshState := RefreshState(None, false, false, [])

  /** The reaction to one event. */
  function Step(s: RefreshState, e: RefreshEvent): RefreshState
  {
    match e
    case Refreshing(x) =>
      if x == s.refreshing then s
      else if x then s.(refreshing := true, calls := s.calls + [BeginRefreshing])
      else s.(refreshing := false, calls := s.calls + [EndRefreshing])
    case OnRefresh(cb) =>
      if cb.Some? then
        if s.installed then s.(onRefresh := cb)
        else s.(onRefresh := cb, installed := true, calls := s.calls + [SetTableRefreshControl])
      else s.(onRefresh := cb, calls := s.calls + [RemoveFromSuperview])
    case UserPull =>
      s.(refreshing := true,
         calls := s.calls + (if s.onRefresh.Some? then [InvokeOnRefresh(s.onRefresh.value)] else []))
    case PullRefreshContentColor(color) =>
      s.(calls := s.calls + [SetTintColor(ColorChannels(color))])
  }

  /** The reaction to a sequence of events, in order. */
  function Run(s: RefreshState, events: seq<RefreshEvent>): RefreshState
    decreases |events|
  {
    if events == [] then s else Run(Step(s, events[0]), events[1..])
  }

  /** Each `refreshing(x)` call in turn. */
  function Settings(xs: seq<bool>): (r: seq<RefreshEvent>)
    ensures |r| == |xs|
    ensures forall k :: 0 <= k < |r| ==> r[k] == Refreshing(xs[k])
  {
    if xs == [] then [] else [Refreshing(xs[0])] + Settings(xs[1..])
  }

  /**
   * Begin and end calls alternate, the first one moving the control away
   * from `from`: a begin is never issued to a control already refreshing,
   * nor an end to one that is not.
   */
  ghost predicate Alternates(calls: seq<ControlCall>, from: bool)
  {
    forall k :: 0 <= k < |calls| ==>
      calls[k] == (if (k % 2 == 0) == from then EndRefreshing else BeginRefreshing)
  }

  /** The state a sequence of requests leaves the control in. */
  function Final(from: bool, xs: seq<bool>): bool
  {
    if xs == [] then from else xs[|xs| - 1]
  }

  /** The begin/end calls a sequence of requests issues, starting from `from`. */
  function Toggles(from: bool, xs: seq<bool>): seq<ControlCall>
    decreases |xs|
  {
    if xs == [] then []
    else
      (if xs[0] == from then [] else [if xs[0] then BeginRefreshing else EndRefreshing])
      + Toggles(xs[0], xs[1..])
  }

  /**
   * The calls a sequence of requests issues alternate, starting with the one
   * that moves the control away from `from`, and there are no more of them
   * than requests.
   */
  lemma {:induction false} TogglesAlternate(from: bool, xs: seq<bool>)
    ensures Alternates(Toggles(from, xs), from) && |Toggles(from, xs)| <= |xs|
    decreases |xs|
  {
    if xs != [] {
      var tail := Toggles(xs[0], xs[1..]);
      TogglesAlternate(xs[0], xs[1..]);
      if xs[0] != from {
        var calls := Toggles(from, xs);
        assert calls == [if xs[0] then BeginRefreshing else EndRefreshing] + tail;
        assert forall k :: 1 <= k < |calls| ==> calls[k] == tail[k - 1];
      }
    }
  }

  /**
   * Any sequence of `refreshing(x)` calls leaves the control in the last
   * requested state and issues exactly the begin/end calls of `Toggles`:
   * one per change of the requested state, none for a repeated value.
   */
  lemma {:induction false} RefreshingTrace(s: RefreshState, xs: seq<bool>)
    ensures Run(s, Settings(xs)) ==
      s.(refreshing := Final(s.refreshing, xs), calls := s.calls + Toggles(s.refreshing, xs))
    decreases |xs|
  {
    if xs == [] {
      assert s.calls + [] == s.calls;
    } else {
      var s1 := Step(s, Refreshing(xs[0]));
      var rest := Toggles(xs[0], xs[1..]);
      assert Settings(xs)[0] == Refreshing(xs[0]) && Settings(xs)[1..] == Settings(xs[1..]);
      assert Run(s, Settings(xs)) == Run(s1, Settings(xs[1..]));
      RefreshingTrace(s1, xs[1..]);
      assert Final(xs[0], xs[1..]) == Final(s.refreshing, xs);
      if xs[0] == s.refreshing {
        assert Toggles(s.refreshing, xs) == rest;
      } else {
        var first := if xs[0] then BeginRefreshing else EndRefreshing;
        assert Toggles(s.refreshing, xs) == [first] + rest;
        assert s1.calls + rest == s.calls + ([first] + rest);
      }
    }
  }

  /**
   * Begin and end calls never repeat: any sequence of `refreshing(x)` calls
   * only appends to the calls made so far, appends alternating begin and end
   * calls (the first leaving the control's state at the start), at most one
   * per request, and leaves the control in the last requested state.
   */
  lemma RefreshingCallsAlternate(s: RefreshState, xs: seq<bool>)
    ensures var t := Run(s, Settings(xs));
      t.refreshing == Final(s.refreshing, xs) &&
      |s.calls| <= |t.calls| <= |s.calls| + |xs| && t.calls[..|s.calls|] == s.calls &&
      Alternates(t.calls[|s.calls|..], s.refreshing) &&
      t.onRefresh == s.onRefresh && t.installed == s.installed
  {
    RefreshingTrace(s, xs);
    TogglesAlternate(s.refreshing, xs);
    var t := Run(s, Settings(xs));
    assert t.calls[|s.calls|..] == Toggles(s.refreshing, xs);
  }

  /** Asking for the state the control is already in issues nothing. */
  lemma RefreshingSameIsNoOp(s: RefreshState)
    ensures Step(s, Refreshing(s.refreshing)) == s
  {
  }

  /**
   * The table is given the control at most once, however many non-null
   * callbacks are set; clearing the callback removes the control from its
   * superview.
   */
  lemma {:induction false} ControlInstalledOnce(s: RefreshState, cbs: seq<CallbackId>)
    requires |cbs| > 0
    ensures var t := Run(s, seq(|cbs|, k requires 0 <= k < |cbs| => OnRefresh(Some(cbs[k]))));
      t.installed && t.onRefresh == Some(cbs[|cbs| - 1]) && t.refreshing == s.refreshing &&
      t.calls == s.calls + (if s.installed then [] else [SetTableRefreshControl])
    decreases |cbs|
  {
    var events := seq(|cbs|, k requires 0 <= k < |cbs| => OnRefresh(Some(cbs[k])));
    var s1 := Step(s, events[0]);
    assert s1.installed && s1.calls == s.calls + (if s.installed then [] else [SetTableRefreshControl]);
    if |cbs| == 1 {
      assert events[1..] == [];
    } else {
      assert events[1..] == seq(|cbs| - 1, k requires 0 <= k < |cbs| - 1 => OnRefresh(Some(cbs[1..][k])));
      ControlInstalledOnce(s1, cbs[1..]);
    }
  }

  /**
   * Clearing the callback removes the control from its superview, but the
   * table's `refreshControl` property still names it; a later non-null
   * callback therefore finds the control installed and does not set it again.
   */
  lemma ClearedControlNotReinstalled(s: RefreshState, cb: CallbackId)
    requires s.installed
    ensures var t := Run(s, [OnRefresh(None), OnRefresh(Some(cb))]);
      t.calls == s.calls + [RemoveFromSuperview] &&
      t.installed && t.onRefresh == Some(cb) && t.refreshing == s.refreshing
  {
    var s1 := Step(s, OnRefresh(None));
    assert Run(s, [OnRefresh(None), OnRefresh(Some(cb))]) == Run(s1, [OnRefresh(Some(cb))]);
    assert Run(s1, [OnRefresh(Some(cb))]) == Step(s1, OnRefresh(Some(cb)));
  }

  /**
   * `UIViewRefreshableLazyList`'s own state; the rest of the list is
   * `LazyList.UIViewLazyList`.
   */
  class UIViewRefreshableLazyList {
    var onRefresh: Option<CallbackId>
    var controlRefreshing: bool
    var controlInstalled: bool
    var calls: seq<ControlCall>

    function State(): RefreshState
      reads this
    {
      RefreshState(onRefresh, controlRefreshing, controlInstalled, calls)
    }

    constructor ()
      ensures State() == Initial
    {
      onRefresh := None;
      controlRefreshing := false;
      controlInstalled := false;
      calls := [];
    }

    /**
     * `refreshing(x)`: nothing happens when the control is already in the
     * requested state; otherwise it begins refreshing for true and ends for
     * false.
     */
    method Refreshing(refreshing: bool)
      modifies this
      ensures State() == Step(old(State()), RefreshEvent.Refreshing(refreshing))
      ensures controlRefreshing == refreshing
      ensures calls == old(calls) + (if refreshing == old(controlRefreshing) then []
                                     else if refreshing then [BeginRefreshing] else [EndRefreshing])
      ensures onRefresh == old(onRefresh) && controlInstalled == old(controlInstalled)
    {
      if refreshing != controlRefreshing {
        if refreshing {
          calls := calls + [BeginRefreshing];
          controlRefreshing := true;
        } else {
          calls := calls + [EndRefreshing];
          controlRefreshing := false;
        }
      }
    }

    /**
     * `onRefresh(cb)`: the callback is stored; a non-null one gives the table
     * the control unless it already has it, a null one removes the control
     * from its superview.
     */
    method OnRefresh(cb: Option<CallbackId>)
      modifies this
      ensures State() == Step(old(State()), RefreshEvent.OnRefresh(cb))
      ensures onRefresh == cb
      ensures cb.Some? ==> (controlInstalled &&
        calls == old(calls) + (if old(controlInstalled) then [] else [SetTableRefreshControl]))
      ensures cb.None? ==> controlInstalled == old(controlInstalled) && calls == old(calls) + [RemoveFromSuperview]
      ensures controlRefreshing == old(controlRefreshing)
    {
      onRefresh := cb;
      if cb.Some? {
        if !controlInstalled {
          controlInstalled := true;
          calls := calls + [SetTableRefreshControl];
        }
      } else {
        calls := calls + [RemoveFromSuperview];
      }
    }

    /**
     * The user pulls the control: UIKit puts it in the refreshing state and
     * fires its valueChanged handler, which invokes the current callback.
     */
    method UserPull()
      modifies this
      ensures State() == Step(old(State()), RefreshEvent.UserPull)
      ensures controlRefreshing
      ensures calls == old(calls) + (if onRefresh.Some? then [InvokeOnRefresh(onRefresh.value)] else [])
      ensures onRefresh == old(onRefresh) && controlInstalled == old(controlInstalled)
    {
      controlRefreshing := true;
      if onRefresh.Some? {
        calls := calls + [InvokeOnRefresh(onRefresh.value)];
      }
    }

    /** `pullRefreshContentColor`: the control's tint becomes the given color. */
    method PullRefreshContentColor(color: bv32)
      modifies this
      ensures State() == Step(old(State()), RefreshEvent.PullRefreshContentColor(color))
      ensures calls == old(calls) + [SetTintColor(ColorChannels(color))]
      ensures onRefresh == old(onRefresh) && controlRefreshing == old(controlRefreshing)
      ensures controlInstalled == old(controlInstalled)
    {
      calls := calls + [SetTintColor(ColorChannels(color))];
    }
  }
}
