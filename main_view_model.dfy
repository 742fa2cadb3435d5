/** The sample screen's MVI view model: an immutable view state replaced wholesale on
    each reduction, and a separate channel of one-shot view events. `dispatch` is a
    closed case analysis over the four view actions. */
module MainViewModel {
  import opened Jvm

  datatype FetchStatus = NotFetched | Fetching | Fetched

  datatype NewsItem = NewsItem(title: string, description: string, imageUrl: string)

  datatype MainViewState = MainViewState(fetchStatus: FetchStatus, newsList: seq<NewsItem>)

  /** `MainViewState()` with its default arguments. */
  const InitialState: MainViewState := MainViewState(NotFetched, [])

  datatype MainViewAction =
    | NewsItemClicked(newsItem: NewsItem)
    | FabClicked
    | OnSwipeRefresh
    | FetchNews

  datatype MainViewEvent = ShowSnackbar(message: string) | ShowToast(message: string)

  /** What `fetchNews` hands to `setState`: `copy(fetchStatus = Fetching)`. */
  function FetchingCopy(s: MainViewState): MainViewState
  {
    s.(fetchStatus := Fetching)
  }

  /** The effect of dispatching `a` against the current state `s`: the next state and
      the event emitted, if any. */
  function Reduce(s: MainViewState, a: MainViewAction): (r: (MainViewState, Option<MainViewEvent>))
    ensures r.0.newsList == s.newsList
    ensures r.0.fetchStatus == if a.FetchNews? || a.OnSwipeRefresh? then Fetching else s.fetchStatus
    ensures r.1.Some? <==> a.NewsItemClicked?
  {
    match a
    case NewsItemClicked(item) => (s, Some(ShowSnackbar(item.title)))
    case FabClicked => (s, None)
    case OnSwipeRefresh => (FetchingCopy(s), None)
    case FetchNews => (FetchingCopy(s), None)
  }

  /** The events of an optional emission, as a sequence. */
  function Emitted(e: Option<MainViewEvent>): seq<MainViewEvent>
  {
    if e.Some? then [e.value] else []
  }

  /** Dispatching `actions` in order from `s`: the final state and every event emitted. */
  function ReduceAll(s: MainViewState, actions: seq<MainViewAction>): (r: (MainViewState, seq<MainViewEvent>))
    ensures r.0.newsList == s.newsList
    ensures |r.1| <= |actions|
  {
    if actions == [] then (s, [])
    else
      var (mid, evs) := ReduceAll(s, actions[..|actions| - 1]);
      var (next, e) := Reduce(mid, actions[|actions| - 1]);
      (next, evs + Emitted(e))
  }

  /** The snackbars a sequence of actions asks for: one per clicked item, carrying its
      title, in click order. */
  function Snackbars(actions: seq<MainViewAction>): seq<MainViewEvent>
  {
    if actions == [] then []
    else
      var last := actions[|actions| - 1];
      Snackbars(actions[..|actions| - 1]) +
        (if last.NewsItemClicked? then [ShowSnackbar(last.newsItem.title)] else [])
  }

  /** Whether a sequence of actions contains a fetch (`FetchNews` or `OnSwipeRefresh`). */
  predicate AnyFetch(actions: seq<MainViewAction>)
  {
    exists i :: 0 <= i < |actions| && (actions[i].FetchNews? || actions[i].OnSwipeRefresh?)
  }

  // ---------------------------------------------------------------------------
  // One dispatch
  // ---------------------------------------------------------------------------

  /** `FetchNews` and `OnSwipeRefresh` set the fetch status to `Fetching`, keep the news
      list, and emit nothing. */
  lemma FetchSetsFetching(s: MainViewState, a: MainViewAction)
    requires a.FetchNews? || a.OnSwipeRefresh?
    ensures Reduce(s, a).0.fetchStatus == Fetching
    ensures Reduce(s, a).0.newsList == s.newsList
    ensures Reduce(s, a).1 == None
  {
  }

  /** A click on a news item keeps the state and emits exactly one snackbar with the
      item's title. */
  lemma ClickEmitsSnackbar(s: MainViewState, item: NewsItem)
    ensures Reduce(s, NewsItemClicked(item)) == (s, Some(ShowSnackbar(item.title)))
  {
  }

  /** A click on the floating action button changes neither state nor events. */
  lemma FabChangesNothing(s: MainViewState)
    ensures Reduce(s, FabClicked) == (s, None)
  {
  }

  /** Fetching twice gives the state that fetching once gives. */
  lemma FetchIdempotent(s: MainViewState)
    ensures Reduce(Reduce(s, FetchNews).0, FetchNews) == Reduce(s, FetchNews)
    ensures Reduce(Reduce(s, OnSwipeRefresh).0, OnSwipeRefresh) == Reduce(s, OnSwipeRefresh)
  {
  }

  /** Only a click emits, and it emits a snackbar; no action emits `ShowToast`. */
  lemma NoToastEmitted(s: MainViewState, a: MainViewAction)
    ensures Reduce(s, a).1.Some? <==> a.NewsItemClicked?
    ensures Reduce(s, a).1.Some? ==> Reduce(s, a).1.value.ShowSnackbar?
  {
  }

  // ---------------------------------------------------------------------------
  // Sequences of dispatches
  // ---------------------------------------------------------------------------

  lemma ReduceAllStep(s: MainViewState, actions: seq<MainViewAction>, a: MainViewAction)
    ensures ReduceAll(s, actions + [a]) ==
      (Reduce(ReduceAll(s, actions).0, a).0, ReduceAll(s, actions).1 + Emitted(Reduce(ReduceAll(s, actions).0, a).1))
  {
    assert (actions + [a])[..|actions|] == actions;
  }

  /** Across any sequence of actions the news list never changes, the events are
      exactly the snackbars of the clicked items in click order, and the fetch status
      is `Fetching` once any fetch was dispatched and the initial one before. */
  lemma {:induction false} ReduceAllEffect(s: MainViewState, actions: seq<MainViewAction>)
    ensures ReduceAll(s, actions).0.newsList == s.newsList
    ensures ReduceAll(s, actions).1 == Snackbars(actions)
    ensures ReduceAll(s, actions).0.fetchStatus == if AnyFetch(actions) then Fetching else s.fetchStatus
    decreases |actions|
  {
    if actions != [] {
      var init, a := actions[..|actions| - 1], actions[|actions| - 1];
      ReduceAllEffect(s, init);
      assert actions == init + [a];
      ReduceAllStep(s, init, a);
      assert AnyFetch(actions) <==> AnyFetch(init) || a.FetchNews? || a.OnSwipeRefresh? by {
        if AnyFetch(init) {
          var i :| 0 <= i < |init| && (init[i].FetchNews? || init[i].OnSwipeRefresh?);
          assert actions[i] == init[i];
        }
        if AnyFetch(actions) && !(a.FetchNews? || a.OnSwipeRefresh?) {
          var i :| 0 <= i < |actions| && (actions[i].FetchNews? || actions[i].OnSwipeRefresh?);
          assert i < |init| && init[i] == actions[i];
        }
      }
    }
  }

  /** No sequence of actions ever emits `ShowToast`: the variant is declared but unused. */
  lemma {:induction false} NeverShowToast(s: MainViewState, actions: seq<MainViewAction>)
    ensures forall e :: e in ReduceAll(s, actions).1 ==> e.ShowSnackbar?
  {
    ReduceAllEffect(s, actions);
    SnackbarsOnly(actions);
  }

  lemma {:induction false} SnackbarsOnly(actions: seq<MainViewAction>)
    ensures forall e :: e in Snackbars(actions) ==> e.ShowSnackbar?
    decreases |actions|
  {
    if actions != [] {
      SnackbarsOnly(actions[..|actions| - 1]);
    }
  }

  // ---------------------------------------------------------------------------
  // The view model object
  // ---------------------------------------------------------------------------

  class MainViewModel {
    /** The current value of `_viewStates`. */
    var viewState: MainViewState
    /** Every event pushed into `_viewEvents`, in order. */
    var events: seq<MainViewEvent>

    constructor ()
      ensures viewState == InitialState && events == []
    {
      viewState := InitialState;
      events := [];
    }

    /** `setState`: replace the current state with `f` of it. */
    method SetState(f: MainViewState -> MainViewState)
      modifies this`viewState
      ensures viewState == f(old(viewState))
    {
      viewState := f(viewState);
    }

    /** `setEvent`: push one event. */
    method SetEvent(e: MainViewEvent)
      modifies this`events
      ensures events == old(events) + [e]
    {
      events := events + [e];
    }

    method NewsItemClickedHandler(item: NewsItem)
      modifies this`events
      ensures events == old(events) + [ShowSnackbar(item.title)]
    {
      SetEvent(ShowSnackbar(item.title));
    }

    /** `fabClicked`: its body is empty. */
    method FabClickedHandler()
      ensures viewState == old(viewState) && events == old(events)
    {
    }

    method FetchNewsHandler()
      modifies this`viewState
      ensures viewState == FetchingCopy(old(viewState))
    {
      SetState(FetchingCopy);
    }

    /** `dispatch`: the state and events afterwards are what `Reduce` says. */
    method Dispatch(a: MainViewAction)
      modifies this
      ensures viewState == Reduce(old(viewState), a).0
      ensures events == old(events) + Emitted(Reduce(old(viewState), a).1)
    {
      match a
      case NewsItemClicked(item) => NewsItemClickedHandler(item);
      case FabClicked => FabClickedHandler();
      case OnSwipeRefresh => FetchNewsHandler();
      case FetchNews => FetchNewsHandler();
    }
  }

  /** From the initial state, `FetchNews` moves to `Fetching` without an event; a click
      on an item titled `x` then leaves the state alone and emits one snackbar `x`. */
  method FetchThenClickScenario(x: string)
    returns (afterFetch: MainViewState, eventsAfterFetch: seq<MainViewEvent>,
             afterClick: MainViewState, eventsAfterClick: seq<MainViewEvent>)
    ensures afterFetch == MainViewState(Fetching, []) && eventsAfterFetch == []
    ensures afterClick == afterFetch && eventsAfterClick == [ShowSnackbar(x)]
  {
    var vm := new MainViewModel();
    vm.Dispatch(FetchNews);
    afterFetch, eventsAfterFetch := vm.viewState, vm.events;
    vm.Dispatch(NewsItemClicked(NewsItem(x, "", "")));
    afterClick, eventsAfterClick := vm.viewState, vm.events;
  }

  /** The sample activity's `initView` dispatches `OnSwipeRefresh` to a fresh view
      model: the screen starts out fetching, with no news and no event. */
  method MainActivityInitViewScenario() returns (state: MainViewState, events: seq<MainViewEvent>)
    ensures state == MainViewState(Fetching, []) && events == []
  {
    var vm := new MainViewModel();
    vm.Dispatch(OnSwipeRefresh);
    state, events := vm.viewState, vm.events;
  }
}
