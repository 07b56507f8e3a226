/**
 * `LazyListContainerCell`, the table cell that hosts one item's view, and the
 * data source's `createView`, which installs a binding into a dequeued cell.
 *
 * A `Binding` belongs to the update processor, which is not part of this
 * model: a binding is known here by its identity, the processor's answer to
 * `isBound` enters as the set of bindings it reports bound, and the cell's
 * calls to `unbind` are recorded. The record also notes each installation of
 * a binding into the cell, so that the two can be related.
 */
module ContainerCell {
  import opened Common

  /** The identity of an update-processor `Binding`. */
  type BindingId = nat

  /** The identity of a `UIView`. */
  type ViewId = nat

  /** A `Widget<UIView>`: `value` is the view it renders into. */
  datatype Widget = Widget(value: ViewId)

  /** What happened to the cell's `binding` field. */
  datatype BindingEvent =
    | Installed(binding: BindingId)  // `result.binding = binding` in createView
    | Unbound(binding: BindingId)    // `binding?.unbind()`, with the binding non-null

  /** The cell as a value. */
  datatype CellState = CellState(
    binding: Option<BindingId>,
    attached: bool,            // superview != null
    content: Option<Widget>,
    subviews: seq<ViewId>,     // contentView.subviews
    history: seq<BindingEvent>)

  /** What can happen to a cell. */
  datatype CellEvent =
    | CreateView(b: BindingId)
    | MoveToSuperview(newAttached: bool, bound: set<BindingId>)
    | PrepareForReuse
    | SetContent(value: Option<Widget>)

  /** A freshly created cell. */
  const Fresh: CellState := CellState(None, false, None, [], [])

  /** The message of the `require` in willMoveToSuperview. */
  const NotBoundMessage: string := "about to display a cell that isn't bound!"

  /** `binding?.unbind(); binding = null`. */
  function Release(c: CellState): CellState
  {
    match c.binding
    case None => c
    case Some(b) => c.(binding := None, history := c.history + [Unbound(b)])
  }

  /** The subviews of contentView once `content` is set to `value`. */
  function ShownViews(value: Option<Widget>): seq<ViewId>
  {
    if value.None? then [] else [value.value.value]
  }

  /**
   * The reaction of the cell to one event; a failed `require` or a null
   * dereference throws, and then the cell does not change.
   */
  function Step(c: CellState, e: CellEvent): Result<CellState>
  {
    match e
    case CreateView(b) =>
      if c.binding.Some? then Err(IllegalArgument(FailedRequirement))
      else Ok(c.(binding := Some(b), history := c.history + [Installed(b)]))
    case MoveToSuperview(newAttached, bound) =>
      if !c.attached && newAttached then
        if c.binding.None? then Err(NullPointer)
        else if c.binding.value !in bound then Err(IllegalArgument(NotBoundMessage))
        else Ok(c.(attached := true))
      else if c.attached && !newAttached then Ok(Release(c).(attached := false))
      else Ok(c)
    case PrepareForReuse =>
      Ok(Release(c))
    case SetContent(value) =>
      Ok(c.(content := value, subviews := ShownViews(value)))
  }

  /** The reaction of the cell to a sequence of events, stopping at the first throw. */
  function Run(c: CellState, events: seq<CellEvent>): Result<CellState>
    decreases |events|
  {
    if events == [] then Ok(c)
    else
      match Step(c, events[0])
      case Err(error) => Err(error)
      case Ok(next) => Run(next, events[1..])
  }

  // ---------------------------------------------------------------------------
  // The binding lifecycle

  /**
   * The history alternates installation and unbinding, and every unbind is of
   * the binding installed just before it: no binding is unbound twice in a
   * row and none is unbound without having been installed.
   */
  ghost predicate Alternating(h: seq<BindingEvent>)
  {
    forall k :: 0 <= k < |h| ==>
      (h[k].Installed? <==> k % 2 == 0) &&
      (h[k].Unbound? ==> k > 0 && h[k - 1] == Installed(h[k].binding))
  }

  /** The binding the history leaves installed, if any. */
  function Current(h: seq<BindingEvent>): Option<BindingId>
  {
    if |h| % 2 == 1 then Some(h[|h| - 1].binding) else None
  }

  /**
   * The lifecycle invariant: the history alternates, the cell holds exactly
   * the binding installed last and not yet unbound, and contentView shows
   * exactly the content's view.
   */
  ghost predicate Lifecycle(c: CellState)
  {
    Alternating(c.history) && c.binding == Current(c.history) &&
    c.subviews == ShownViews(c.content)
  }

  /** Releasing keeps the lifecycle, and leaves no binding installed. */
  lemma ReleaseKeepsLifecycle(c: CellState)
    requires Lifecycle(c)
    ensures Lifecycle(Release(c)) && Release(c).binding.None?
  {
  }

  /** Every event that does not throw keeps the lifecycle invariant. */
  lemma StepKeepsLifecycle(c: CellState, e: CellEvent)
    requires Lifecycle(c) && Step(c, e).Ok?
    ensures Lifecycle(Step(c, e).value)
  {
  }

  /**
   * Whatever the host does to a cell, as long as nothing throws, the cell's
   * binding history alternates install and unbind, each unbind naming the
   * binding installed just before it, and the cell holds the binding not yet
   * unbound; contentView shows exactly the content's view.
   */
  lemma {:induction false} RunKeepsLifecycle(c: CellState, events: seq<CellEvent>)
    requires Lifecycle(c) && Run(c, events).Ok?
    ensures Lifecycle(Run(c, events).value)
    decreases |events|
  {
    if events != [] {
      StepKeepsLifecycle(c, events[0]);
      RunKeepsLifecycle(Step(c, events[0]).value, events[1..]);
    }
  }

  /** From a fresh cell, every unbind follows the installation of the same binding. */
  lemma FreshCellUnbindsOncePerInstall(events: seq<CellEvent>)
    requires Run(Fresh, events).Ok?
    ensures var h := Run(Fresh, events).value.history;
      forall k :: 0 <= k < |h| && h[k].Unbound? ==> k > 0 && h[k - 1] == Installed(h[k].binding)
  {
    RunKeepsLifecycle(Fresh, events);
  }

  /**
   * Detaching and then preparing for reuse (both of which unbind) unbinds
   * once: the second finds no binding.
   */
  lemma DetachThenReuseUnbindsOnce(c: CellState, b: BindingId, bound: set<BindingId>)
    requires c.attached && c.binding == Some(b)
    ensures var r := Run(c, [MoveToSuperview(false, bound), PrepareForReuse]);
      r.Ok? && r.value.history == c.history + [Unbound(b)] && r.value.binding.None?
  {
    var events := [MoveToSuperview(false, bound), PrepareForReuse];
    var detached := Step(c, events[0]).value;
    assert events[1..] == [PrepareForReuse];
    assert Run(c, events) == Run(detached, [PrepareForReuse]);
    assert Run(detached, [PrepareForReuse]) == Step(detached, PrepareForReuse);
  }

  /**
   * Moving from no superview to one succeeds exactly when the cell holds a
   * binding the update processor reports bound; without a binding it fails
   * on `!!`, with an unbound one on the `require`.
   */
  lemma DisplayRequiresBound(c: CellState, bound: set<BindingId>)
    requires !c.attached
    ensures var r := Step(c, MoveToSuperview(true, bound));
      (r.Ok? <==> c.binding.Some? && c.binding.value in bound) &&
      (c.binding.None? ==> r == Err(NullPointer)) &&
      (c.binding.Some? && c.binding.value !in bound ==> r == Err(IllegalArgument(NotBoundMessage))) &&
      (r.Ok? ==> r.value.attached && r.value.history == c.history)
  {
  }

  // ---------------------------------------------------------------------------
  // The cell itself

  /** Removes the first occurrence of `v`, as `removeFromSuperview` takes `v` out of its parent. */
  function RemoveView(views: seq<ViewId>, v: ViewId): seq<ViewId>
  {
    if views == [] then []
    else if views[0] == v then views[1..]
    else [views[0]] + RemoveView(views[1..], v)
  }

  class LazyListContainerCell {
    var binding: Option<BindingId>
    var attached: bool
    var content: Option<Widget>
    var subviews: seq<ViewId>
    var history: seq<BindingEvent>

    /** The cell as a value. */
    function State(): CellState
      reads this
    {
      CellState(binding, attached, content, subviews, history)
    }

    ghost predicate Valid()
      reads this
    {
      Lifecycle(State())
    }

    constructor ()
      ensures Valid() && State() == Fresh
    {
      binding := None;
      attached := false;
      content := None;
      subviews := [];
      history := [];
    }

    /**
     * The `content` setter: the new value is stored, every previous subview
     * of contentView is removed, and the value's view, if any, is added.
     */
    method SetContent(value: Option<Widget>)
      requires Valid()
      modifies this
      ensures Valid()
      ensures Step(old(State()), CellEvent.SetContent(value)) == Ok(State())
      ensures content == value
      ensures subviews == if value.None? then [] else [value.value.value]
      ensures binding == old(binding) && attached == old(attached) && history == old(history)
    {
      content := value;
      RemoveAllSubviews();
      if value.Some? {
        subviews := subviews + [value.value.value];
      }
    }

    /** `removeAllSubviews`: every subview of contentView, in turn, leaves it. */
    method RemoveAllSubviews()
      modifies this
      ensures subviews == []
      ensures binding == old(binding) && attached == old(attached)
      ensures content == old(content) && history == old(history)
    {
      var snapshot := subviews;
      var i := 0;
      while i < |snapshot|
        invariant 0 <= i <= |snapshot|
        invariant subviews == snapshot[i..]
        invariant binding == old(binding) && attached == old(attached)
        invariant content == old(content) && history == old(history)
      {
        assert subviews[0] == snapshot[i];
        subviews := RemoveView(subviews, snapshot[i]);
        i := i + 1;
      }
    }

    /**
     * The host moves the cell to a superview (`newAttached`) or out of one,
     * calling `willMoveToSuperview` first. On the way in, the cell must hold a
     * binding that is bound; on the way out, its binding is unbound and
     * cleared. If the hook throws, the move does not happen.
     */
    method MoveToSuperview(newAttached: bool, bound: set<BindingId>) returns (r: Result<()>)
      requires Valid()
      modifies this
      ensures Valid()
      ensures var o := Step(old(State()), CellEvent.MoveToSuperview(newAttached, bound));
        (o.Ok? ==> r == Ok(()) && State() == o.value) &&
        (o.Err? ==> r == Err(o.error) && State() == old(State()))
      ensures r.Err? <==> !old(attached) && newAttached && (old(binding).None? || old(binding).value !in bound)
      ensures old(attached) && !newAttached ==>
        binding.None? && !attached &&
        history == old(history) + (if old(binding).Some? then [Unbound(old(binding).value)] else [])
      ensures content == old(content) && subviews == old(subviews)
    {
      ghost var c := State();
      if !attached && newAttached {
        // Entering a superview: the cell must hold a binding the processor reports bound.
        if binding.None? {
          return Err(NullPointer);
        }
        if binding.value !in bound {
          return Err(IllegalArgument(NotBoundMessage));
        }
      }
      if attached && !newAttached {
        // Leaving its superview: release the binding.
        Unbind();
      }
      attached := newAttached;
      r := Ok(());
      StepKeepsLifecycle(c, CellEvent.MoveToSuperview(newAttached, bound));
    }

    /** `prepareForReuse`: the binding, if any, is unbound and cleared. */
    method PrepareForReuse()
      requires Valid()
      modifies this
      ensures Valid()
      ensures Step(old(State()), CellEvent.PrepareForReuse) == Ok(State())
      ensures binding.None?
      ensures history == old(history) + (if old(binding).Some? then [Unbound(old(binding).value)] else [])
      ensures attached == old(attached) && content == old(content) && subviews == old(subviews)
    {
      ghost var c := State();
      Unbind();
      StepKeepsLifecycle(c, CellEvent.PrepareForReuse);
    }

    /** `binding?.unbind(); binding = null`. */
    method Unbind()
      modifies this
      ensures State() == Release(old(State()))
    {
      if binding.Some? {
        history := history + [Unbound(binding.value)];
      }
      binding := None;
    }
  }

  /**
   * The data source's `createView`: the cell the table dequeued must hold no
   * binding; it then holds the given one.
   */
  method CreateView(cell: LazyListContainerCell, b: BindingId) returns (r: Result<LazyListContainerCell>)
    requires cell.Valid()
    modifies cell
    ensures cell.Valid()
    ensures var o := Step(old(cell.State()), CellEvent.CreateView(b));
      (o.Ok? ==> r == Ok(cell) && cell.State() == o.value) &&
      (o.Err? ==> r == Err(o.error) && cell.State() == old(cell.State()))
    ensures r.Ok? <==> old(cell.binding).None?
    ensures r.Ok? ==> cell.binding == Some(b) && cell.history == old(cell.history) + [Installed(b)]
    ensures r.Err? ==> r.error == IllegalArgument(FailedRequirement)
  {
    if cell.binding.Some? {
      return Err(IllegalArgument(FailedRequirement));
    }
    ghost var c := cell.State();
    cell.binding := Some(b);
    cell.history := cell.history + [Installed(b)];
    r := Ok(cell);
    StepKeepsLifecycle(c, CellEvent.CreateView(b));
  }
}
