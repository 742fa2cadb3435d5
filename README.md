# BasePlugin core, modelled in Dafny

This project models the core of an Android base library written in Kotlin. The core has
two parts. The first is `AppManager`, the registry of live activities: an ordered stack
that the host's lifecycle callbacks keep up to date, plus the application it serves,
queries for the top activity and the foreground state, and the finish and exit
operations. The second is the MVI sample screen's `MainViewModel`: an immutable view
state replaced wholesale, a one-shot event channel, and a four-way `dispatch`.

Around them are the two base templates (`BaseMviActivity`, `BaseMviFragment`), the two
network error classifiers, and the deterministic parts of the view and resource helpers
(`ViewExt.kt`, `ResourceExt.kt`).

There is one Dafny module per source file. `Jvm` (jvm.dfy) holds what the modules share:
`Option`, `Result`/`Outcome` for values that may be a thrown JVM exception, and
throwables with their class hierarchy.

- Code that updates objects in place is modelled as classes with `modifies` frames:
  - the activity stack, the view model, the base templates;
  - views and layout parameters, the click throttle, the fragment manager, the toast;
  - the log switch.
- Calls into the Android host are recorded in a call-trace field, in order. These are
  callback registration, `Activity.finish`, fragment transactions and toast calls.
- A thrown exception is an error value, never a precondition. The modelled exceptions
  are a failed `!!` or non-null cast, `lastElement()` on an empty stack, the fail-fast
  iterator of `java.util.Vector`, an array index past the end, and a failed cast.
- Pure code (the reducer, the classifiers, `getFileName`, the clamp and the toggle) is
  modelled as functions, with lemmas stating what the source promises.
- Where a method needs a reference definition, a loop-free function plays that part.
  The method's `ensures` ties the new state to it, for example `FinishEach`, `Throttled`,
  `Hides`/`Adds` and `Slots`.

Some behaviours of the code are easy to misread. The model states them as the code has them:

- `finishAllActivity` walks the indices of a reversed copy but indexes the original
  stack. So it finishes every activity exactly once, **bottom-first**
  (`FinishEachOrder`, `FinishEachNotTopFirst`).
- `finishActivity(Class)` removes from the live `Stack` inside `forEach`. Under
  `Vector`'s fail-fast iterator:
  - the first match is finished and removed;
  - the walk then ends normally only when that match was second from the top;
  - otherwise it throws `ConcurrentModificationException`;
  - no later match is ever finished.
- The `viewModel` getters of both templates read a private `_viewModel` that nothing
  assigns, so they always throw. The sample `MainActivity.initView` would therefore throw
  before dispatching. Its dispatch is modelled on a view model directly
  (`MainActivityInitViewScenario`).
- Every toast `show` builds a fresh `AbsToast` with its own `Toast`. Nothing cancels an
  earlier toast; only a toast's own posted callback cancels it.

## Model

| member | source | states |
|---|---|---|
| AppManager.Top | plugin/src/main/java/com/example/baseplugin/mvi/AppManager.kt:77-82 | Absent exactly on an empty stack; otherwise it is the element pushed last. |
| AppManager.FinishEach | plugin/src/main/java/com/example/baseplugin/mvi/AppManager.kt:125-128 | One call per activity on the stack, and every one of them is a `finish`. |
| AppManager.IndexOf | plugin/src/main/java/com/example/baseplugin/mvi/AppManager.kt:69 | The first position holding the activity, or -1 exactly when it is absent (what `Vector.remove(Object)` looks for). |
| AppManager.RemoveFirst | plugin/src/main/java/com/example/baseplugin/mvi/AppManager.kt:69 | Removing an absent activity changes nothing. Otherwise exactly one occurrence goes: the length drops by one and the multiset loses one copy. |
| AppManager.RemoveFirstShape | plugin/src/main/java/com/example/baseplugin/mvi/AppManager.kt:68-70 | The removed occurrence is the first one, and the order of the rest is kept. |
| AppManager.RemoveFirstUnique | plugin/src/main/java/com/example/baseplugin/mvi/AppManager.kt:68-70 | An activity present at most once is gone after the removal. |
| AppManager.Reversed | plugin/src/main/java/com/example/baseplugin/mvi/AppManager.kt:126 | `reversed()` is a same-length copy read back to front. |
| AppManager.FirstOfClass | plugin/src/main/java/com/example/baseplugin/mvi/AppManager.kt:117-123 | The first position whose activity has the class, or -1 exactly when none has it. |
| AppManager.RegistrationsAppend | plugin/src/main/java/com/example/baseplugin/mvi/AppManager.kt:40-46 | A register call adds one registration for its application, an unregister call removes one, and other calls change none. |
| AppManager.RegistrationsFinishEach | plugin/src/main/java/com/example/baseplugin/mvi/AppManager.kt:125-130 | Finishing activities leaves the callback registrations unchanged. |
| AppManager.TopAfterCreated | plugin/src/main/java/com/example/baseplugin/mvi/AppManager.kt:49-51 | After `onActivityCreated(a)`, `a` is the top and the stack below it is unchanged. |
| AppManager.TopAfterRemovingOther | plugin/src/main/java/com/example/baseplugin/mvi/AppManager.kt:68-70 | Destroying an activity that is not on top keeps the top. |
| AppManager.FinishEachAt | plugin/src/main/java/com/example/baseplugin/mvi/AppManager.kt:125-128 | `finishAllActivity` makes one finish call per position, and call `i` finishes `stack[i]`. |
| AppManager.FinishEachOrder | plugin/src/main/java/com/example/baseplugin/mvi/AppManager.kt:125-130 | The activities finished, in order, are exactly the stack from the bottom up. |
| AppManager.FinishEachExactlyOnce | plugin/src/main/java/com/example/baseplugin/mvi/AppManager.kt:125-130 | Every activity is finished exactly as many times as it is on the stack. |
| AppManager.FinishEachNotTopFirst | plugin/src/main/java/com/example/baseplugin/mvi/AppManager.kt:126-127 | For two distinct activities, the finish order is not the reversed stack. |
| AppManager.RemoveFirstIsWithout | plugin/src/main/java/com/example/baseplugin/mvi/AppManager.kt:69 | For an activity present at most once, removing its first occurrence filters it out. |
| AppManager.Replay | plugin/src/main/java/com/example/baseplugin/mvi/AppManager.kt:48-71 | The stack built by delivering the notifications in order is never longer than the notifications, and holds only activities some notification created. |
| AppManager.LiveDestroyed | plugin/src/main/java/com/example/baseplugin/mvi/AppManager.kt:68-70 | A destruction filters the activity out of the reference sequence of live activities. |
| AppManager.LiveCount | plugin/src/main/java/com/example/baseplugin/mvi/AppManager.kt:49-51 | An activity created at most once is live at most once. |
| AppManager.ReplayIsLive | plugin/src/main/java/com/example/baseplugin/mvi/AppManager.kt:48-71 | Take any well-formed sequence of create and destroy notifications. The stack the callbacks build is the activities created and not destroyed, in creation order, so `getTopActivity` is the newest live one. |
| AppManager.AppManager.constructor | plugin/src/main/java/com/example/baseplugin/mvi/AppManager.kt:16-18 | An empty stack, no application, no calls, no registration. |
| AppManager.AppManager.Register | plugin/src/main/java/com/example/baseplugin/mvi/AppManager.kt:40-42 | A registration call for a present application; nothing for null. |
| AppManager.AppManager.Unregister | plugin/src/main/java/com/example/baseplugin/mvi/AppManager.kt:44-46 | An unregistration call for a present application; nothing for null. |
| AppManager.AppManager.Init | plugin/src/main/java/com/example/baseplugin/mvi/AppManager.kt:26-38 | Null changes nothing. A first application registers. The same one again changes nothing. A different one unregisters the old, then registers the new. The callbacks stay registered exactly once, with the current application. |
| AppManager.AppManager.OnActivityCreated | plugin/src/main/java/com/example/baseplugin/mvi/AppManager.kt:49-51 | The activity is appended on top. |
| AppManager.AppManager.OnActivityDestroyed | plugin/src/main/java/com/example/baseplugin/mvi/AppManager.kt:68-70 | The stack loses the first occurrence of the activity. |
| AppManager.AppManager.GetApp | plugin/src/main/java/com/example/baseplugin/mvi/AppManager.kt:73-75 | The application, or a `NullPointerException` before `init`. |
| AppManager.AppManager.GetTopActivity | plugin/src/main/java/com/example/baseplugin/mvi/AppManager.kt:77-82 | The last element, or null on an empty stack. |
| AppManager.AppManager.GetContext | plugin/src/main/java/com/example/baseplugin/mvi/AppManager.kt:84-86 | The top activity; on an empty stack, the cast of null to `Context` throws. |
| AppManager.AppManager.GetAppContext | plugin/src/main/java/com/example/baseplugin/mvi/AppManager.kt:88-90 | The application's context, or a `NullPointerException` before `init`. |
| AppManager.AppManager.IsAppForeground | plugin/src/main/java/com/example/baseplugin/mvi/AppManager.kt:95-108 | It throws when no application is set. Otherwise it answers true exactly when some entry of the process table is in the foreground and is named after the package. |
| AppManager.AppManager.FinishTopActivity | plugin/src/main/java/com/example/baseplugin/mvi/AppManager.kt:110 | `NoSuchElementException` on an empty stack. Otherwise one finish call for the top, which stays on the stack. |
| AppManager.AppManager.FinishActivity | plugin/src/main/java/com/example/baseplugin/mvi/AppManager.kt:112-115 | The first occurrence is removed and `finish` is called on the activity. |
| AppManager.AppManager.FinishActivityOfClass | plugin/src/main/java/com/example/baseplugin/mvi/AppManager.kt:117-123 | No match changes nothing. Otherwise the first match is removed and finished, and nothing else is. The walk completes exactly when that match was second from the top, and otherwise raises `ConcurrentModificationException`. |
| AppManager.AppManager.FinishAllActivity | plugin/src/main/java/com/example/baseplugin/mvi/AppManager.kt:125-130 | The calls made are `FinishEach` of the old stack (bottom-first), and the stack is then empty. |
| AppManager.AppManager.AppExit | plugin/src/main/java/com/example/baseplugin/mvi/AppManager.kt:132-137 | Finish all, kill the package's background processes, exit with status 0, in that order. The callbacks stay registered exactly once with the current application. |
| AppManager.DestroyMiddle | plugin/src/main/java/com/example/baseplugin/mvi/AppManager.kt:68-70 | Destroying the middle one of three distinct activities leaves the other two in order. |
| AppManager.LifecycleScenario | plugin/src/main/java/com/example/baseplugin/mvi/AppManager.kt:49-82 | Create A, B, C and destroy B. The top is C both times, and A and C remain in creation order. |
| AppManager.FinishAllScenario | plugin/src/main/java/com/example/baseplugin/mvi/AppManager.kt:125-130 | With A below C, `finishAllActivity` finishes A before C, not C first, and the stack ends empty. |
| MainViewModel.Reduce | plugin/src/main/java/com/example/baseplugin/ui/activity/MainViewModel.kt:21-28 | One dispatch keeps the news list. The status becomes `Fetching` for the two fetch actions and is kept otherwise. An event is emitted exactly for a click. |
| MainViewModel.ReduceAll | plugin/src/main/java/com/example/baseplugin/ui/activity/MainViewModel.kt:21-28 | Dispatching a sequence keeps the news list and emits at most one event per action. |
| MainViewModel.FetchSetsFetching | plugin/src/main/java/com/example/baseplugin/ui/activity/MainViewModel.kt:39-44 | `FetchNews` and `OnSwipeRefresh` set `Fetching`, keep the news list and emit nothing. |
| MainViewModel.ClickEmitsSnackbar | plugin/src/main/java/com/example/baseplugin/ui/activity/MainViewModel.kt:30-33 | A click keeps the state and emits one snackbar with the item's title. |
| MainViewModel.FabChangesNothing | plugin/src/main/java/com/example/baseplugin/ui/activity/MainViewModel.kt:35-37 | The fab click changes neither the state nor the events. |
| MainViewModel.FetchIdempotent | plugin/src/main/java/com/example/baseplugin/ui/activity/MainViewModel.kt:39-44 | Fetching twice gives the state of fetching once. |
| MainViewModel.NoToastEmitted | plugin/src/main/java/com/example/baseplugin/ui/activity/MainViewModel.kt:21-28 | An action emits exactly when it is a click, and then a snackbar. |
| MainViewModel.ReduceAllEffect | plugin/src/main/java/com/example/baseplugin/ui/activity/MainViewModel.kt:21-44 | For any sequence of actions, the news list never changes. The events are the clicked titles in order. The status is `Fetching` exactly when some fetch was dispatched. |
| MainViewModel.NeverShowToast | plugin/src/main/java/com/example/baseplugin/ui/activity/MainViewModel.kt:48-51 | No sequence of actions emits `ShowToast`. |
| MainViewModel.SnackbarsOnly | plugin/src/main/java/com/example/baseplugin/ui/activity/MainViewModel.kt:30-33 | The snackbar reference sequence holds only snackbars. |
| MainViewModel.MainViewModel.constructor | plugin/src/main/java/com/example/baseplugin/ui/activity/MainViewModel.kt:15-18 | The default initial state and no events. |
| MainViewModel.MainViewModel.SetState | plugin/src/main/java/com/example/baseplugin/ui/activity/MainViewModel.kt:41-43 | The state is replaced by the update applied to the old state. |
| MainViewModel.MainViewModel.SetEvent | plugin/src/main/java/com/example/baseplugin/ui/activity/MainViewModel.kt:32 | One event is appended. |
| MainViewModel.MainViewModel.NewsItemClickedHandler | plugin/src/main/java/com/example/baseplugin/ui/activity/MainViewModel.kt:30-33 | Appends the snackbar with the item's title. |
| MainViewModel.MainViewModel.FabClickedHandler | plugin/src/main/java/com/example/baseplugin/ui/activity/MainViewModel.kt:35-37 | The state and the events are unchanged. |
| MainViewModel.MainViewModel.FetchNewsHandler | plugin/src/main/java/com/example/baseplugin/ui/activity/MainViewModel.kt:39-44 | The state becomes its copy with `Fetching`. |
| MainViewModel.MainViewModel.Dispatch | plugin/src/main/java/com/example/baseplugin/ui/activity/MainViewModel.kt:21-28 | The new state and the emitted events are what the four-way reduction gives for the action. |
| MainViewModel.FetchThenClickScenario | plugin/src/main/java/com/example/baseplugin/ui/activity/MainViewModel.kt:21-33 | From the initial state, a fetch moves to `Fetching` silently, and a click then emits exactly its title. |
| MainViewModel.MainActivityInitViewScenario | plugin/src/main/java/com/example/baseplugin/ui/activity/MainActivity.kt:10 | `OnSwipeRefresh` on a fresh view model gives `Fetching`, no news and no event. |
| ViewExt.Limit | plugin/src/main/java/com/example/baseplugin/utils/ViewExt.kt:67-71 | With min <= max the result lies in [min, max]. A value in range is kept, a value below min gives min, and a value not below min but above max gives max. |
| ViewExt.LimitIdempotent | plugin/src/main/java/com/example/baseplugin/utils/ViewExt.kt:62-74 | Clamping twice equals clamping once. |
| ViewExt.LimitInverted | plugin/src/main/java/com/example/baseplugin/utils/ViewExt.kt:67-71 | With max < min the result is min below min and max otherwise. |
| ViewExt.MarginAfter | plugin/src/main/java/com/example/baseplugin/utils/ViewExt.kt:139-146 | The `Int.MAX_VALUE` sentinel keeps the old margin; any other argument replaces it. |
| ViewExt.MarginChangesIff | plugin/src/main/java/com/example/baseplugin/utils/ViewExt.kt:139-146 | A margin changes exactly when its argument is not the sentinel and differs from it. |
| ViewExt.Toggled | plugin/src/main/java/com/example/baseplugin/utils/ViewExt.kt:289-291 | VISIBLE exactly from GONE, and GONE from anything else. |
| ViewExt.ToggleTwice | plugin/src/main/java/com/example/baseplugin/utils/ViewExt.kt:289-291 | Toggling twice restores GONE and VISIBLE but turns INVISIBLE into VISIBLE. |
| ViewExt.VisibilityCodeInjective | plugin/src/main/java/com/example/baseplugin/utils/ViewExt.kt:271-284 | Two visibilities have the same `View` code exactly when they are equal. |
| ViewExt.View.IsGone | plugin/src/main/java/com/example/baseplugin/utils/ViewExt.kt:271-274 | True exactly when the stored code is `View.GONE`. |
| ViewExt.View.IsVisible | plugin/src/main/java/com/example/baseplugin/utils/ViewExt.kt:276-279 | True exactly when the stored code is `View.VISIBLE`. |
| ViewExt.View.IsInvisible | plugin/src/main/java/com/example/baseplugin/utils/ViewExt.kt:281-284 | True exactly when the stored code is `View.INVISIBLE`. |
| ViewExt.View.ParamsOrDefault | plugin/src/main/java/com/example/baseplugin/utils/ViewExt.kt:47-50 | The existing parameters, or fresh plain MATCH_PARENT x WRAP_CONTENT ones. |
| ViewExt.View.Height | plugin/src/main/java/com/example/baseplugin/utils/ViewExt.kt:46-54 | Only the height changes, to the argument. Absent parameters become fresh plain ones, MATCH_PARENT wide. |
| ViewExt.View.Width | plugin/src/main/java/com/example/baseplugin/utils/ViewExt.kt:79-87 | Only the width changes, to the argument. Absent parameters become fresh plain ones, WRAP_CONTENT high. |
| ViewExt.View.WidthAndHeight | plugin/src/main/java/com/example/baseplugin/utils/ViewExt.kt:114-123 | Both dimensions change to the arguments and the margins are kept. |
| ViewExt.View.LimitHeight | plugin/src/main/java/com/example/baseplugin/utils/ViewExt.kt:62-74 | The height becomes the clamp of the argument, and nothing else changes. |
| ViewExt.View.LimitWidth | plugin/src/main/java/com/example/baseplugin/utils/ViewExt.kt:95-107 | The width becomes the clamp of the argument, and nothing else changes. |
| ViewExt.View.Margin | plugin/src/main/java/com/example/baseplugin/utils/ViewExt.kt:132-149 | Absent parameters throw `NullPointerException` and plain ones `ClassCastException`. Otherwise each margin is replaced unless its argument is the sentinel, and the dimensions are kept. |
| ViewExt.View.SetGone | plugin/src/main/java/com/example/baseplugin/utils/ViewExt.kt:258-261 | The visibility becomes GONE. |
| ViewExt.View.SetVisible | plugin/src/main/java/com/example/baseplugin/utils/ViewExt.kt:263-265 | The visibility becomes VISIBLE. |
| ViewExt.View.SetInvisible | plugin/src/main/java/com/example/baseplugin/utils/ViewExt.kt:267-269 | The visibility becomes INVISIBLE. |
| ViewExt.View.ToggleVisibility | plugin/src/main/java/com/example/baseplugin/utils/ViewExt.kt:289-291 | The new visibility is the toggle of the old one. `isVisible` afterwards holds exactly when `isGone` held before. |
| ViewExt.LayoutScenario | plugin/src/main/java/com/example/baseplugin/utils/ViewExt.kt:62-149 | `limitHeight` on a view without parameters stores the clamp on MATCH_PARENT-wide plain parameters. `margin` then throws `ClassCastException`, and on a view with no parameters `NullPointerException`. |
| ViewExt.MarginScenario | plugin/src/main/java/com/example/baseplugin/utils/ViewExt.kt:132-149 | `margin(topMargin = t)` sets only the top margin. |
| ViewExt.ClickThrottle.constructor | plugin/src/main/java/com/example/baseplugin/utils/ViewExt.kt:234-235 | The flag is clear, no reset is pending, and no action has run. |
| ViewExt.ClickThrottle.RunDue | plugin/src/main/java/com/example/baseplugin/utils/ViewExt.kt:235 | A due reset clears the flag and is consumed; otherwise nothing changes. |
| ViewExt.ClickThrottle.Click | plugin/src/main/java/com/example/baseplugin/utils/ViewExt.kt:236-245 | The action runs exactly when the flag was clear. The flag is then set, and the reset is rescheduled 350 ms later. |
| ViewExt.Throttled | plugin/src/main/java/com/example/baseplugin/utils/ViewExt.kt:234-245 | Never more actions than presses, and at least one for a non-empty sequence. |
| ViewExt.DeliverPresses | plugin/src/main/java/com/example/baseplugin/utils/ViewExt.kt:234-245 | Delivering presses in order runs exactly the actions of `Throttled`. A press runs when it is the first, or when the previous press on any view was at least 350 ms earlier. |
| ViewExt.BurstRunsFirstOnly | plugin/src/main/java/com/example/baseplugin/utils/ViewExt.kt:234-245 | Presses under 350 ms apart, on any mix of views, run only the first action: the flag is shared. |
| ViewExt.SpacedPressesAllRun | plugin/src/main/java/com/example/baseplugin/utils/ViewExt.kt:234-245 | Presses at least 350 ms apart all run, in order. |
| ViewExt.Animated | plugin/src/main/java/com/example/baseplugin/utils/ViewExt.kt:357-365 | The custom animations are prepended exactly when both are given. |
| ViewExt.Hides | plugin/src/main/java/com/example/baseplugin/utils/ViewExt.kt:366-368 | One `hide` transaction for each element after the first, in order. |
| ViewExt.Adds | plugin/src/main/java/com/example/baseplugin/utils/ViewExt.kt:382-392 | One `add` transaction per element, in order, each animated when both animations are given. |
| ViewExt.FragmentManager.InTransaction | plugin/src/main/java/com/example/baseplugin/utils/ViewExt.kt:318-319 | One committed transaction carrying the operations. |
| ViewExt.FragmentManager.AddFragment | plugin/src/main/java/com/example/baseplugin/utils/ViewExt.kt:321-322 | One `add` transaction. |
| ViewExt.FragmentManager.ReplaceFragment | plugin/src/main/java/com/example/baseplugin/utils/ViewExt.kt:324-338 | One `replace` transaction, animated exactly when both animations are given. |
| ViewExt.FragmentManager.HideFragment | plugin/src/main/java/com/example/baseplugin/utils/ViewExt.kt:341-342 | One `hide` transaction. |
| ViewExt.FragmentManager.ShowFragment | plugin/src/main/java/com/example/baseplugin/utils/ViewExt.kt:344-345 | One `show` transaction. |
| ViewExt.FragmentManager.HideRest | plugin/src/main/java/com/example/baseplugin/utils/ViewExt.kt:366-368 | The loop commits exactly `Hides(list)`. |
| ViewExt.FragmentManager.AddEach | plugin/src/main/java/com/example/baseplugin/utils/ViewExt.kt:382-392 | The loop commits exactly `Adds(list, ...)`. |
| ViewExt.FragmentManager.ShowHideFragment | plugin/src/main/java/com/example/baseplugin/utils/ViewExt.kt:351-370 | An empty list commits nothing. Otherwise it commits an (animated) show of `list[0]`, then one hide per later element in order. |
| ViewExt.FragmentManager.AddHideFragment | plugin/src/main/java/com/example/baseplugin/utils/ViewExt.kt:376-397 | An empty list commits nothing. Otherwise it commits one add per element in order, then one hide per element after the first. |
| ViewExt.ShownAfterHides | plugin/src/main/java/com/example/baseplugin/utils/ViewExt.kt:366-368 | After the hides, `list[1..]` is hidden and every other fragment is as before. |
| ViewExt.ShownAfterAdds | plugin/src/main/java/com/example/baseplugin/utils/ViewExt.kt:382-392 | After the adds, every listed fragment is shown and the others are as before. |
| ViewExt.ShowHideOutcome | plugin/src/main/java/com/example/baseplugin/utils/ViewExt.kt:351-370 | On distinct fragments, `list[0]` ends shown, the others hidden, and fragments outside the list untouched. |
| ViewExt.AddHideOutcome | plugin/src/main/java/com/example/baseplugin/utils/ViewExt.kt:376-397 | On distinct fragments, `list[0]` ends shown, the others hidden, and fragments outside the list untouched. |
| ViewExt.TabsScenario | plugin/src/main/java/com/example/baseplugin/utils/ViewExt.kt:351-397 | The exact transactions for three tabs, without and with animations. |
| ViewExt.OrientationOf | plugin/src/main/java/com/example/baseplugin/mvi/ShowOrientation.java:18-21 | An int names an orientation exactly when it is 0 to 3. |
| ViewExt.OrientationRoundTrip | plugin/src/main/java/com/example/baseplugin/mvi/ShowOrientation.java:18-21 | Code and orientation convert into each other both ways. |
| ViewExt.ToastDispatch | plugin/src/main/java/com/example/baseplugin/utils/ViewExt.kt:470-479 | A toast is shown exactly when there is a top activity and the type is 0 or 1. Type 0 is short and type 1 is long. |
| ViewExt.DefaultToastIsShort | plugin/src/main/java/com/example/baseplugin/utils/ViewExt.kt:461-463 | `showToast()` shows a short toast exactly when there is a top activity. |
| ViewExt.ToastDispatchWithDrawable | plugin/src/main/java/com/example/baseplugin/utils/ViewExt.kt:488-527 | A toast is shown exactly when the orientation is one of the four constants, there is a top activity, and the show type is 0 or 1. It keeps that orientation and the type's duration. |
| ViewExt.DrawableToastDefaults | plugin/src/main/java/com/example/baseplugin/utils/ViewExt.kt:488-492 | The default arguments give a long toast with the drawable at the start. |
| ViewExt.Slots | plugin/src/main/java/com/example/baseplugin/utils/ViewExt.kt:589-596 | Four slots, the view in the one the orientation names, and nothing elsewhere. |
| ViewExt.CancelDelay | plugin/src/main/java/com/example/baseplugin/utils/ViewExt.kt:663 | 2000 ms for `LENGTH_SHORT`, 3500 ms for every other duration. |
| ViewExt.AbsToast.constructor | plugin/src/main/java/com/example/baseplugin/utils/ViewExt.kt:600-608 | Toast and handler set, four empty slots, and no calls. |
| ViewExt.AbsToast.SetDrawables | plugin/src/main/java/com/example/baseplugin/utils/ViewExt.kt:610-618 | Slots 0 to 3 are copied unchanged. A shorter input throws `ArrayIndexOutOfBoundsException` after copying what it has. |
| ViewExt.AbsToast.SetTextView | plugin/src/main/java/com/example/baseplugin/utils/ViewExt.kt:620-654 | The text shown becomes the argument. |
| ViewExt.AbsToast.Show | plugin/src/main/java/com/example/baseplugin/utils/ViewExt.kt:660-664 | Duration and show calls only while the toast is set, and the delayed cancel only while the handler is set. |
| ViewExt.AbsToast.Cancel | plugin/src/main/java/com/example/baseplugin/utils/ViewExt.kt:666-670 | It cancels the toast if it is set, then drops both toast and handler. |
| ViewExt.ShowText | plugin/src/main/java/com/example/baseplugin/utils/ViewExt.kt:585-587 | Empty slots, the text, and the calls set-duration, show, cancel after the duration's delay. |
| ViewExt.ShowTextWithDrawable | plugin/src/main/java/com/example/baseplugin/utils/ViewExt.kt:589-598 | The slots are `Slots(view, orientation)`, with the text and the same three calls. |
| ViewExt.CancelThenShowScenario | plugin/src/main/java/com/example/baseplugin/utils/ViewExt.kt:660-670 | Cancelling twice cancels once, and showing after the cancel makes no call. |
| ResourceExt.IndexOfString | plugin/src/main/java/com/example/baseplugin/utils/ResourceExt.kt:103 | The first occurrence of the delimiter, or -1 exactly when there is none. |
| ResourceExt.Split | plugin/src/main/java/com/example/baseplugin/utils/ResourceExt.kt:103 | The pieces are never empty as a list. |
| ResourceExt.IndexOfChar | plugin/src/main/java/com/example/baseplugin/utils/ResourceExt.kt:107 | The first position of the character, or -1 exactly when it is absent. |
| ResourceExt.SplitWithoutDelimiter | plugin/src/main/java/com/example/baseplugin/utils/ResourceExt.kt:103-106 | A string without the literal delimiter splits into itself alone. |
| ResourceExt.SplitLastHasNoDelimiter | plugin/src/main/java/com/example/baseplugin/utils/ResourceExt.kt:103-106 | The last piece never contains the delimiter. |
| ResourceExt.GetFileName | plugin/src/main/java/com/example/baseplugin/utils/ResourceExt.kt:99-112 | A present file name is returned; otherwise the result ends in ".java". |
| ResourceExt.CutAtDollar | plugin/src/main/java/com/example/baseplugin/utils/ResourceExt.kt:107-110 | A prefix without `$`: the whole string when it has none, else the part before its first `$`. |
| ResourceExt.FileNameKept | plugin/src/main/java/com/example/baseplugin/utils/ResourceExt.kt:100-101 | A present file name is returned unchanged. |
| ResourceExt.FileNameFromClass | plugin/src/main/java/com/example/baseplugin/utils/ResourceExt.kt:102-111 | Otherwise the result is the last piece of the class name split at the delimiter, cut before its first `$`, followed by ".java". That segment has no `$` and no delimiter. |
| ResourceExt.FileNameIsCut | plugin/src/main/java/com/example/baseplugin/utils/ResourceExt.kt:102-111 | Without a file name, the result is exactly the last piece of the split class name, cut before its first `$`, followed by ".java". |
| ResourceExt.PackagePrefixKept | plugin/src/main/java/com/example/baseplugin/utils/ResourceExt.kt:102-111 | For every class name without the literal delimiter, dotted names included, the package prefix is kept: the result is the name up to its first `$`, then ".java". |
| ResourceExt.DottedPrefixKept | plugin/src/main/java/com/example/baseplugin/utils/ResourceExt.kt:103-111 | "a.b.C$1" gives "a.b.C.java": the dotted package prefix is kept. |
| ResourceExt.LogSwitch.constructor | plugin/src/main/java/com/example/baseplugin/utils/ResourceExt.kt:66 | Logging is off by default, and nothing has been written. |
| ResourceExt.LogSwitch.IsPrintLog | plugin/src/main/java/com/example/baseplugin/utils/ResourceExt.kt:67-69 | It reads the switch. |
| ResourceExt.LogSwitch.SetPrintLog | plugin/src/main/java/com/example/baseplugin/utils/ResourceExt.kt:71-73 | It sets the switch. |
| ResourceExt.LogSwitch.Loge | plugin/src/main/java/com/example/baseplugin/utils/ResourceExt.kt:75-97 | One line is written exactly when the switch is on and the level is one of the six log levels; otherwise nothing. |
| ResourceExt.LogSwitchScenario | plugin/src/main/java/com/example/baseplugin/utils/ResourceExt.kt:66-76 | Setting then reading gives the value set, and by default `loge` writes nothing. |
| ResourceExt.StatusBarHeight | plugin/src/main/java/com/example/baseplugin/utils/ResourceExt.kt:148-154 | 0 when the resource id is not positive, the dimension otherwise. |
| BaseMviActivity.BaseMviActivity.constructor | plugin/src/main/java/com/example/baseplugin/mvi/BaseMviActivity.kt:13 | `_viewModel` starts null. |
| BaseMviActivity.BaseMviActivity.OnCreate | plugin/src/main/java/com/example/baseplugin/mvi/BaseMviActivity.kt:17-23 | Host `onCreate`, `initVariableId`, `setContentView` with its id, `initView`, `initViewModel`, in that order. |
| BaseMviActivity.BaseMviActivity.ViewModel | plugin/src/main/java/com/example/baseplugin/mvi/BaseMviActivity.kt:14-15 | It throws while `_viewModel` is null. |
| BaseMviActivity.OnCreateOrder | plugin/src/main/java/com/example/baseplugin/mvi/BaseMviActivity.kt:17-23 | Each hook runs exactly once, `initView` before `initViewModel`, both after the content view is set. |
| BaseMviActivity.ViewModelNeverAssigned | plugin/src/main/java/com/example/baseplugin/mvi/BaseMviActivity.kt:13-15 | After `onCreate` the getter still throws `NullPointerException`. |
| BaseMviFragment.BaseMviFragment.constructor | plugin/src/main/java/com/example/baseplugin/mvi/BaseMviFragment.kt:16-18 | No root view and no view model. |
| BaseMviFragment.BaseMviFragment.OnCreateView | plugin/src/main/java/com/example/baseplugin/mvi/BaseMviFragment.kt:22-31 | The root view is the inflated layout. Then `initView`, then `initViewModel`. The result is the host's, not the root view. |
| BaseMviFragment.BaseMviFragment.OnHiddenChanged | plugin/src/main/java/com/example/baseplugin/mvi/BaseMviFragment.kt:33-42 | The host's `onHiddenChanged`, then the one hook. |
| BaseMviFragment.BaseMviFragment.ViewModel | plugin/src/main/java/com/example/baseplugin/mvi/BaseMviFragment.kt:18-20 | It throws while `_viewModel` is null. |
| BaseMviFragment.OnCreateViewOrder | plugin/src/main/java/com/example/baseplugin/mvi/BaseMviFragment.kt:27-30 | Inflation, `initView`, `initViewModel` each once in that order, and the host's `onCreateView` last. |
| BaseMviFragment.OnHiddenChangedDispatch | plugin/src/main/java/com/example/baseplugin/mvi/BaseMviFragment.kt:33-42 | `hiddenGone` runs exactly when hidden, and `hiddenVisible` exactly when shown. |
| BaseMviFragment.OnCreateViewScenario | plugin/src/main/java/com/example/baseplugin/mvi/BaseMviFragment.kt:22-31 | The host's null result is returned while the root view is set, and the getter throws. |
| NetworkExceptionHandler.MessageFor | plugin/src/main/java/com/example/baseplugin/network/NetworkExceptionHandler.kt:21-25 | The network-error message for `UnknownHostException`/`SocketTimeoutException` and their subclasses, the request-failed message otherwise. |
| NetworkExceptionHandler.HandleException | plugin/src/main/java/com/example/baseplugin/network/NetworkExceptionHandler.kt:19-26 | Two calls: `onException` with the exception, then one toast carrying one of the two messages. |
| NetworkExceptionHandler.MessagesDiffer | plugin/src/main/java/com/example/baseplugin/network/NetworkExceptionHandler.kt:22-24 | The two messages differ. |
| NetworkExceptionHandler.HandleExceptionCalls | plugin/src/main/java/com/example/baseplugin/network/NetworkExceptionHandler.kt:19-26 | `onException` gets the exception first. Exactly one toast follows, the network message exactly for network failures. |
| NetworkExceptionHandler.SubclassIsNetworkFailure | plugin/src/main/java/com/example/baseplugin/network/NetworkExceptionHandler.kt:21-22 | A subclass of `SocketTimeoutException` gets the network message. |
| NetworkExt.CommonCatch | plugin/src/main/java/com/example/baseplugin/network/NetworkExt.kt:11-19 | Two calls: one toast carrying one of the two messages, then `action` with the same cause. |
| NetworkExt.CommonCatchCalls | plugin/src/main/java/com/example/baseplugin/network/NetworkExt.kt:11-19 | One toast chosen by the same two-way classification, then `action` with the same cause. |
| NetworkExt.SameClassificationAsHandler | plugin/src/main/java/com/example/baseplugin/network/NetworkExt.kt:13-17 | The catch stage and the exception handler show the same message for every throwable. |

## Left out

- The lazy singleton `AppManager.instance` and the lazily created stack are a single `AppManager` object here.
- Thread safety is out of scope.
- `isAppForeground` takes the process table the host would return as an input. The host query itself is not modelled.
- Host objects appear only as identities and recorded calls:
  - `Activity.finish` and callback registration;
  - `killBackgroundProcesses` and `exitProcess`;
  - fragment transactions and `Toast`/`Handler` calls.
- The other five lifecycle callbacks have empty bodies and are not modelled.
- `loge` calls in the view-model handlers, and the `loge` tag text, are left out. The
  tag is made from the stack trace, the thread name and the `Formatter`, through
  `Log.e`. `Loge` records only the distinguishing tag and the message.
- `getFileName` is modelled in full. The stack-frame lookup `stackTrace[2]` that feeds it is not.
- `LiveData`, `SingleLiveEvent` delivery, `observeState` and `FetchStatus` are not
  part of this model. Their files are not available. The state is replaced and the
  events are appended; no replay or delivery semantics are claimed.
- The animations (`animateWidth`/`animateHeight`/`animateWidthAndHeight`) use float
  fractions and real time.
- dp/px/sp conversions, text measuring and `softKeyboardIsShouldShowed` are float arithmetic.
- These are drawing, spans, reflection and intents, not logic:
  - `setRoundRectBg` and the span helpers;
  - `startTo*Activity` and `view{}`;
  - `children` and `longClick`.
- Resource lookups, Gson, `toJson` and the Looper checks are library wrappers. So is
  the Int-to-string-resource fallback of `showShort`/`showLong`; the toast text is
  passed as a string.
- `AbsToast.SetTextView`: layout inflation, the icon views made visible, and `setBg`/`setCenterGravity` are not modelled; only the text is recorded.
- ViewExt.AbsToast.constructor: it does not model the `getApp()` call. That call would throw before `init`.
- The `runOnUiThread` hop of `showToast` is not modelled. `ToastDispatch` and `ToastDispatchWithDrawable` return what would be shown, and `ShowText`/`ShowTextWithDrawable` give its effect.
- ViewExt.ClickThrottle.Click: it assumes one handler queue for all views, the main thread's. A detached view posts elsewhere, and that is not modelled.
- Each action is recorded by its view's identity rather than run.
- `View` visibility is one of the three constants. Other int values cannot be set through the modelled setters.
- 32-bit widths are not modelled. No arithmetic in the modelled code can overflow: the clamp only compares, and `now + 350` is a time stamp.
