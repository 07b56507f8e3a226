# Redwood lazy list on iOS: the UIKit glue

This project models the iOS side of Redwood's lazy list,
`UIViewLazyList.kt`. That file glues the platform-independent update and scroll
processors to a `UITableView`. It covers four small state machines:

- **The scroll gate** (`LazyList.UIViewLazyList`). The list keeps a flag,
  `ignoreScrollUpdates`, and the delegate caches the last forwarded pair of
  visible rows. A request for content offset y = 0 while the table is not at
  y = 0 counts as a programmatic scroll to top: the flag is set and
  `onScrollToTop` is reported. `programmaticScroll` sets the flag to
  `animated`. A drag or the end of a scroll animation clears it.
  `scrollViewDidScroll` either drops the frame or forwards the smallest and
  largest visible row to `onUserScroll`.
- **Row commands** (`insertRows`/`deleteRows`). `(index, count)` becomes the
  rows `index until index + count` of section 0, sent inside one
  `beginUpdates`/`endUpdates` bracket. The table has one section
  (`numberOfRowsInSection`).
- **The container cell** (`ContainerCell.LazyListContainerCell`). It holds an
  optional binding, and `createView` installs one into a cell that must have
  none. A cell that is about to be displayed must hold a bound binding.
  Detaching the cell, or preparing it for reuse, unbinds and clears its
  binding. Setting `content` replaces every subview of `contentView`.
- **Pull to refresh** (`RefreshableLazyList.UIViewRefreshableLazyList`).
  `refreshing(x)` acts only when `x` differs from the control's state.
  `onRefresh` installs the control in the table at most once.

UIKit and the two processors are represented only by the calls made into them,
recorded in order. What UIKit reports enters the model as parameters of the
event that reads it: the table's live content offset and the visible rows. The
update processor's answer to whether a binding is bound is a parameter too. Each class has a value view `State()` and a pure
`Step` function over events. Every event handler is proved to produce
`Step(old(State()), event)` and also states its effect directly. The lemmas
are about `Step` and about `Run`, which applies a sequence of events.

The glue forwards every scroll frame that is not ignored to `onUserScroll`,
repeats included; a pair equal to the cached one only skips the cache write
(`RepeatedViewportForwardedTwice`).

## Model

| member | source | states |
|---|---|---|
| `LazyList.RowsUntil` | redwood-lazylayout-uiview/src/commonMain/kotlin/app/cash/redwood/lazylayout/uiview/UIViewLazyList.kt:113 | `lo until hi` mapped to index paths has `hi - lo` entries (none when `hi <= lo`), the k-th being row `lo + k` of section 0, so they ascend |
| `LazyList.RowPositions` | redwood-lazylayout-uiview/src/commonMain/kotlin/app/cash/redwood/lazylayout/uiview/UIViewLazyList.kt:108-130 | without Int overflow, `(index, count)` yields exactly `count` rows `index, ..., index+count-1` of section 0 (none for `count <= 0`); when `index + count` exceeds `Int.MAX_VALUE` the wrapped range is empty; when it falls below `Int.MIN_VALUE` the end wraps up by 2^32 and the rows run from `index` to that end |
| `LazyList.NumberOfRowsInSection` | redwood-lazylayout-uiview/src/commonMain/kotlin/app/cash/redwood/lazylayout/uiview/UIViewLazyList.kt:158-164 | it succeeds iff the section is 0, then with the processor's size; any other section fails the `require` |
| `LazyList.MinOf` | redwood-lazylayout-uiview/src/commonMain/kotlin/app/cash/redwood/lazylayout/uiview/UIViewLazyList.kt:204 | the first index is one of the visible rows and no visible row is smaller |
| `LazyList.MaxOf` | redwood-lazylayout-uiview/src/commonMain/kotlin/app/cash/redwood/lazylayout/uiview/UIViewLazyList.kt:205 | the last index is one of the visible rows and no visible row is larger |
| `LazyList.StepKeepsConsistent` | redwood-lazylayout-uiview/src/commonMain/kotlin/app/cash/redwood/lazylayout/uiview/UIViewLazyList.kt:198-215 | every event keeps the invariant: each forwarded pair has first <= last and the cache equals the last forwarded pair |
| `LazyList.RunKeepsConsistent` | redwood-lazylayout-uiview/src/commonMain/kotlin/app/cash/redwood/lazylayout/uiview/UIViewLazyList.kt:198-215 | any sequence of events keeps that invariant |
| `LazyList.InitialRunConsistent` | redwood-lazylayout-uiview/src/commonMain/kotlin/app/cash/redwood/lazylayout/uiview/UIViewLazyList.kt:195-214 | from a fresh list, after any events, every forwarded pair is ordered and the cache holds the last one |
| `LazyList.IgnoredFramesChangeNothing` | redwood-lazylayout-uiview/src/commonMain/kotlin/app/cash/redwood/lazylayout/uiview/UIViewLazyList.kt:199 | while updates are ignored, any number of scroll frames changes nothing: no call, no cache update |
| `LazyList.AnimatedScrollForwardsNothing` | redwood-lazylayout-uiview/src/commonMain/kotlin/app/cash/redwood/lazylayout/uiview/UIViewLazyList.kt:143-150 | an animated programmatic scroll followed by any frames makes only the scroll-to-row call and leaves the cache alone |
| `LazyList.ScrollToTopForwardsNothing` | redwood-lazylayout-uiview/src/commonMain/kotlin/app/cash/redwood/lazylayout/uiview/UIViewLazyList.kt:84-93 | a request for y = 0 while UIKit reports a non-zero y, then any frames, reports `onScrollToTop` once, then passes the request on, and forwards nothing and leaves the cache alone |
| `LazyList.GateStaysClosed` | redwood-lazylayout-uiview/src/commonMain/kotlin/app/cash/redwood/lazylayout/uiview/UIViewLazyList.kt:198-227 | once updates are ignored, any events other than a drag start, an animation end or a non-animated programmatic scroll keep them ignored, forward nothing and leave the cache alone |
| `LazyList.DragResumesForwarding` | redwood-lazylayout-uiview/src/commonMain/kotlin/app/cash/redwood/lazylayout/uiview/UIViewLazyList.kt:217-223 | a drag during an animated programmatic scroll re-enables forwarding at once: the next frame reaches `onUserScroll` |
| `LazyList.DidScrollForwardsIff` | redwood-lazylayout-uiview/src/commonMain/kotlin/app/cash/redwood/lazylayout/uiview/UIViewLazyList.kt:198-215 | a frame forwards exactly one `(min, max)` pair of the visible rows, with min <= max, iff updates are not ignored and rows are visible; otherwise the state is unchanged |
| `LazyList.RepeatedViewportForwardedTwice` | redwood-lazylayout-uiview/src/commonMain/kotlin/app/cash/redwood/lazylayout/uiview/UIViewLazyList.kt:207-214 | the same visible rows reported twice are forwarded twice; the cache ends equal to the pair |
| `LazyList.RowCommandsLeaveScrollState` | redwood-lazylayout-uiview/src/commonMain/kotlin/app/cash/redwood/lazylayout/uiview/UIViewLazyList.kt:108-130 | inserting or deleting rows leaves the flag and the cache unchanged |
| `LazyList.UIViewLazyList.constructor` | redwood-lazylayout-uiview/src/commonMain/kotlin/app/cash/redwood/lazylayout/uiview/UIViewLazyList.kt:138 | a new list does not ignore updates, caches (0, 0), has made no call, and satisfies the invariant |
| `LazyList.UIViewLazyList.SetContentOffset` | redwood-lazylayout-uiview/src/commonMain/kotlin/app/cash/redwood/lazylayout/uiview/UIViewLazyList.kt:84-93 | `onScrollToTop` is recorded once and the flag set iff y = 0 was requested while the table's live y, as UIKit reports it, is not 0; in every case the offset request is passed on afterwards; the cache is untouched |
| `LazyList.UIViewLazyList.ProgrammaticScroll` | redwood-lazylayout-uiview/src/commonMain/kotlin/app/cash/redwood/lazylayout/uiview/UIViewLazyList.kt:143-150 | the flag becomes `animated`, and one scroll to row `firstIndex` of section 0 with that `animated` is requested |
| `LazyList.UIViewLazyList.ScrollViewDidScroll` | redwood-lazylayout-uiview/src/commonMain/kotlin/app/cash/redwood/lazylayout/uiview/UIViewLazyList.kt:198-215 | ignored, absent or empty rows leave the whole state unchanged; otherwise exactly `onUserScroll(min, max)` is recorded and the cache becomes `(min, max)`, with min <= max |
| `LazyList.UIViewLazyList.ScrollViewWillBeginDragging` | redwood-lazylayout-uiview/src/commonMain/kotlin/app/cash/redwood/lazylayout/uiview/UIViewLazyList.kt:221-223 | the flag is cleared whatever it was; nothing else changes |
| `LazyList.UIViewLazyList.ScrollViewDidEndScrollingAnimation` | redwood-lazylayout-uiview/src/commonMain/kotlin/app/cash/redwood/lazylayout/uiview/UIViewLazyList.kt:225-227 | the flag is cleared whatever it was; nothing else changes |
| `LazyList.UIViewLazyList.InsertRows` | redwood-lazylayout-uiview/src/commonMain/kotlin/app/cash/redwood/lazylayout/uiview/UIViewLazyList.kt:108-118 | exactly begin, one insertion of `RowPositions(index, count)`, end are recorded |
| `LazyList.UIViewLazyList.DeleteRows` | redwood-lazylayout-uiview/src/commonMain/kotlin/app/cash/redwood/lazylayout/uiview/UIViewLazyList.kt:120-130 | exactly begin, one deletion of `RowPositions(index, count)`, end are recorded |
| `ContainerCell.ReleaseKeepsLifecycle` | redwood-lazylayout-uiview/src/commonMain/kotlin/app/cash/redwood/lazylayout/uiview/UIViewLazyList.kt:346-347 | `binding?.unbind(); binding = null` keeps the lifecycle invariant and leaves no binding |
| `ContainerCell.StepKeepsLifecycle` | redwood-lazylayout-uiview/src/commonMain/kotlin/app/cash/redwood/lazylayout/uiview/UIViewLazyList.kt:326-348 | every cell event that does not throw keeps the lifecycle invariant |
| `ContainerCell.RunKeepsLifecycle` | redwood-lazylayout-uiview/src/commonMain/kotlin/app/cash/redwood/lazylayout/uiview/UIViewLazyList.kt:326-348 | over any events that do not throw, installs and unbinds alternate, each unbind is of the binding installed just before it, the cell holds the one not yet unbound, and contentView shows exactly the content's view |
| `ContainerCell.FreshCellUnbindsOncePerInstall` | redwood-lazylayout-uiview/src/commonMain/kotlin/app/cash/redwood/lazylayout/uiview/UIViewLazyList.kt:336-347 | from a fresh cell, every unbind directly follows the install of the same binding, so no binding is unbound twice per install |
| `ContainerCell.DetachThenReuseUnbindsOnce` | redwood-lazylayout-uiview/src/commonMain/kotlin/app/cash/redwood/lazylayout/uiview/UIViewLazyList.kt:336-347 | a detach followed by `prepareForReuse` unbinds the binding once and leaves none |
| `ContainerCell.DisplayRequiresBound` | redwood-lazylayout-uiview/src/commonMain/kotlin/app/cash/redwood/lazylayout/uiview/UIViewLazyList.kt:331-334 | attaching succeeds iff the cell holds a binding reported bound; no binding fails on `!!`, an unbound one on the `require` with its message |
| `ContainerCell.LazyListContainerCell.constructor` | redwood-lazylayout-uiview/src/commonMain/kotlin/app/cash/redwood/lazylayout/uiview/UIViewLazyList.kt:296-299 | a new cell has no binding, no content, no subviews, no superview |
| `ContainerCell.LazyListContainerCell.SetContent` | redwood-lazylayout-uiview/src/commonMain/kotlin/app/cash/redwood/lazylayout/uiview/UIViewLazyList.kt:299-308 | the stored content equals the new value; the subviews are `[]` for null and exactly `[value.value]` otherwise; the binding is untouched |
| `ContainerCell.LazyListContainerCell.RemoveAllSubviews` | redwood-lazylayout-uiview/src/commonMain/kotlin/app/cash/redwood/lazylayout/uiview/UIViewLazyList.kt:370-377 | after removing each subview in turn, contentView has none; nothing else changes |
| `ContainerCell.LazyListContainerCell.MoveToSuperview` | redwood-lazylayout-uiview/src/commonMain/kotlin/app/cash/redwood/lazylayout/uiview/UIViewLazyList.kt:326-341 | it throws iff the cell is attached without a bound binding, and then nothing changes; a detach unbinds the held binding, if any, and clears it |
| `ContainerCell.LazyListContainerCell.PrepareForReuse` | redwood-lazylayout-uiview/src/commonMain/kotlin/app/cash/redwood/lazylayout/uiview/UIViewLazyList.kt:343-348 | the held binding, if any, is unbound once and cleared; nothing else changes |
| `ContainerCell.LazyListContainerCell.Unbind` | redwood-lazylayout-uiview/src/commonMain/kotlin/app/cash/redwood/lazylayout/uiview/UIViewLazyList.kt:338-339 | a non-null binding is unbound and cleared; with none, nothing happens |
| `ContainerCell.CreateView` | redwood-lazylayout-uiview/src/commonMain/kotlin/app/cash/redwood/lazylayout/uiview/UIViewLazyList.kt:176-189 | succeeds iff the dequeued cell has no binding, which then becomes the given one; otherwise the `require` fails and the cell is unchanged |
| `RefreshableLazyList.ColorChannels` | redwood-lazylayout-uiview/src/commonMain/kotlin/app/cash/redwood/lazylayout/uiview/UIViewLazyList.kt:419-424 | the alpha, red, green and blue bytes extracted from 0xAARRGGBB reassemble to the color |
| `RefreshableLazyList.TogglesAlternate` | redwood-lazylayout-uiview/src/commonMain/kotlin/app/cash/redwood/lazylayout/uiview/UIViewLazyList.kt:392-400 | the begin/end calls that a sequence of requests causes alternate, and there are at most as many as requests |
| `RefreshableLazyList.RefreshingTrace` | redwood-lazylayout-uiview/src/commonMain/kotlin/app/cash/redwood/lazylayout/uiview/UIViewLazyList.kt:392-400 | any sequence of `refreshing(x)` ends in the last requested state and issues exactly one call per change of value |
| `RefreshableLazyList.RefreshingCallsAlternate` | redwood-lazylayout-uiview/src/commonMain/kotlin/app/cash/redwood/lazylayout/uiview/UIViewLazyList.kt:392-400 | any sequence of `refreshing(x)` only appends alternating begin/end calls, at most one per request; begin never goes to a refreshing control, end never to an idle one |
| `RefreshableLazyList.RefreshingSameIsNoOp` | redwood-lazylayout-uiview/src/commonMain/kotlin/app/cash/redwood/lazylayout/uiview/UIViewLazyList.kt:393 | `refreshing(x)` with x equal to the control's state changes nothing |
| `RefreshableLazyList.ClearedControlNotReinstalled` | redwood-lazylayout-uiview/src/commonMain/kotlin/app/cash/redwood/lazylayout/uiview/UIViewLazyList.kt:402-412 | on a table that uses the control, clearing the callback and then setting a new one removes the control from its superview once and does not set the table's `refreshControl` again; the new callback is kept |
| `RefreshableLazyList.ControlInstalledOnce` | redwood-lazylayout-uiview/src/commonMain/kotlin/app/cash/redwood/lazylayout/uiview/UIViewLazyList.kt:402-408 | any number of non-null callbacks give the table the control at most once, and the last callback is kept |
| `RefreshableLazyList.UIViewRefreshableLazyList.constructor` | redwood-lazylayout-uiview/src/commonMain/kotlin/app/cash/redwood/lazylayout/uiview/UIViewLazyList.kt:382-390 | no callback, the control is idle and not installed, and no call has been made |
| `RefreshableLazyList.UIViewRefreshableLazyList.Refreshing` | redwood-lazylayout-uiview/src/commonMain/kotlin/app/cash/redwood/lazylayout/uiview/UIViewLazyList.kt:392-400 | the control ends in the requested state; begin is issued for a change to true, end for a change to false, nothing for no change |
| `RefreshableLazyList.UIViewRefreshableLazyList.OnRefresh` | redwood-lazylayout-uiview/src/commonMain/kotlin/app/cash/redwood/lazylayout/uiview/UIViewLazyList.kt:402-412 | the callback is stored; a non-null one installs the control only if it is not installed; a null one removes the control from its superview |
| `RefreshableLazyList.UIViewRefreshableLazyList.UserPull` | redwood-lazylayout-uiview/src/commonMain/kotlin/app/cash/redwood/lazylayout/uiview/UIViewLazyList.kt:384-389 | the value-changed handler invokes the current callback, if any, and only that one |
| `RefreshableLazyList.UIViewRefreshableLazyList.PullRefreshContentColor` | redwood-lazylayout-uiview/src/commonMain/kotlin/app/cash/redwood/lazylayout/uiview/UIViewLazyList.kt:414-416 | the control's tint is set once, to the color's channels |

## Left out

- `LazyListUpdateProcessor` and `LazyListScrollProcessor` are not part of this model. Their calls (`onScrollToTop`, `onUserScroll`) are only recorded. Item diffing, `getOrCreateView`, `size`, placeholders, `itemsBefore`/`itemsAfter`, `onEndChanges`, `scrollItemIndex` clamping, `contentSize` and viewport de-duplication or forwarding all happen inside them.
- The list's pure delegations to those processors are not modelled, because each only calls into components outside this model: `onViewportChanged`, `scrollItemIndex`, `itemsBefore`, `itemsAfter`, `placeholder`, `items`, `contentSize`, and `onEndChanges`, which calls the update processor's and then the scroll processor's `onEndChanges`.
- `setContent(view, content)`, which the update processor calls on the list, is modelled by the cell's `content` setter (`ContainerCell.LazyListContainerCell.SetContent`), which is all it does besides a debug `println`.
- `cellForRowAtIndexPath` is modelled only through `createView`. The `item.toInt()` there and the processor's `getOrCreateView` are not modelled.
- UIKit behaviour is not modelled: `registerClass`, `dequeueReusableCellWithIdentifier` (the dequeued cell is a parameter of `CreateView`), `performWithoutAnimation`, the scroll animation itself, and the table's `init` configuration.
- Host re-entrancy is not modelled as such. When UIKit delivers `scrollViewDidScroll` during `scrollToRowAtIndexPath` or `setContentOffset`, those frames are the `DidScroll` events that follow the step. They therefore see the flag's new value.
- The offset y is a `Double` in the source and a `real` here. NaN and -0.0 are not modelled. The x of the requested offset is passed on unchanged to UIKit and not recorded; the guard reads only y. The table's live offset is not tracked by the model: UIKit moves it on user scrolling, `scrollToRowAtIndexPath` and animations, so `setContentOffset` takes the value UIKit reports at the call as a parameter.
- `willMoveToSuperview` and UIKit's change of `superview` are folded into `MoveToSuperview`. The superview is reduced to attached or not. When the hook throws, the move is modelled as not happening.
- UIKit moving a view between superviews is not modelled: `addSubview` takes a view out of any other cell's `contentView`. The invariant that `contentView` shows exactly the content's view (`ContainerCell.Lifecycle`, `RunKeepsLifecycle`) assumes no view is shared between cells, i.e. that the update processor clears a cell's content before its view is put into another cell.
- `Binding.isBound` and `Binding.unbind` belong to the update processor. The processor's answer to `isBound` is a parameter, and the cell's `unbind` calls are recorded.
- Measurement and geometry are left out because they are floating-point or empty: `layoutSubviews`, `sizeThatFits`, `createPlaceholder`, `margin`, `width`, `height`, `isVertical`, `crossAxisAlignment`, and the `/255.0` scaling in `UIColor(UInt)`.
- Some cell details are left out because they only feed logging or visuals: debug `println`, the UUID `identifier`, the three counters, `backgroundColor`, `selectedBackgroundView`, `setNeedsLayout`, and `initWithStyle`/`initWithFrame`.
- `refreshControl` is created lazily in the source; here it exists from the start. `removeFromSuperview` is recorded, and it leaves the table's `refreshControl` property unchanged. The model does not assume UIKit clears that property, so a non-null callback set after `onRefresh(null)` does not put the removed control back (`RefreshableLazyList.ClearedControlNotReinstalled`).
- Other files are not modelled, as none holds lazy-list logic: the Android snapshot test scaffolding (`TextTest.kt`, `AbstractTextTest.kt`), the counter sample's coroutine wiring, the UIView layout `utils.kt`, the JS `WeakReference` binding, and the `YGCloneNodeFunc` interface.
