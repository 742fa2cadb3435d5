/** The fragment base template: `onCreateView` inflates the subclass's layout into
    `mRootView`, runs the hooks `initView` and `initViewModel`, and returns what the
    host's `onCreateView` returns; `onHiddenChanged` forwards to one of two hooks. */
module BaseMviFragment {
  import opened Jvm

  /** A view produced by inflating a layout resource. */
  datatype View = InflatedView(layoutId: int)

  /** A call the template makes: into the host superclass, the inflater, or a hook. */
  datatype FragmentCall =
    | GetLayoutId
    | Inflate(layoutId: int)
    | InitView
    | InitViewModel
    | SuperOnCreateView
    | SuperOnHiddenChanged(hidden: bool)
    | HiddenGone
    | HiddenVisible

  /** The subclass's view model, as an opaque identity. */
  datatype ViewModelRef = ViewModelRef(id: nat)

  /** The calls one `onCreateView` makes, in order. */
  function OnCreateViewCalls(layoutId: int): seq<FragmentCall>
  {
    [GetLayoutId, Inflate(layoutId), InitView, InitViewModel, SuperOnCreateView]
  }

  /** The calls one `onHiddenChanged(hidden)` makes, in order. */
  function OnHiddenChangedCalls(hidden: bool): seq<FragmentCall>
  {
    [SuperOnHiddenChanged(hidden)] + (if hidden then [HiddenGone] else [HiddenVisible])
  }

  class BaseMviFragment {
    var mRootView: Option<View>
    /** `_viewModel`: private and never assigned. */
    var viewModelField: Option<ViewModelRef>
    var calls: seq<FragmentCall>

    constructor ()
      ensures mRootView == None && viewModelField == None && calls == []
    {
      mRootView := None;
      viewModelField := None;
      calls := [];
    }

    /** `onCreateView`: `layoutId` is what the subclass's `getLayoutId()` returns and
        `superResult` what the host's `onCreateView` returns. */
    method OnCreateView(layoutId: int, superResult: Option<View>) returns (r: Option<View>)
      modifies this`mRootView, this`calls
      ensures mRootView == Some(InflatedView(layoutId))
      ensures calls == old(calls) + OnCreateViewCalls(layoutId)
      ensures r == superResult
    {
      calls := calls + [GetLayoutId];
      calls := calls + [Inflate(layoutId)];
      mRootView := Some(InflatedView(layoutId));
      calls := calls + [InitView];
      calls := calls + [InitViewModel];
      calls := calls + [SuperOnCreateView];
      r := superResult;
    }

    /** `onHiddenChanged(hidden)`. */
    method OnHiddenChanged(hidden: bool)
      modifies this`calls
      ensures calls == old(calls) + OnHiddenChangedCalls(hidden)
    {
      calls := calls + [SuperOnHiddenChanged(hidden)];
      if hidden {
        calls := calls + [HiddenGone];
      } else {
        calls := calls + [HiddenVisible];
      }
    }

    /** The `viewModel` getter: `_viewModel!!`. */
    method ViewModel() returns (r: Result<ViewModelRef>)
      ensures viewModelField.None? ==> r == Throws(NullPointer)
      ensures viewModelField.Some? ==> r == Ok(viewModelField.value)
    {
      if viewModelField.None? {
        return Throws(NullPointer);
      }
      return Ok(viewModelField.value);
    }
  }

  /** Inflation comes first, then `initView`, then `initViewModel`, each once, and the
      host's `onCreateView` last. */
  lemma OnCreateViewOrder(layoutId: int)
    ensures |OnCreateViewCalls(layoutId)| == 5
    ensures forall i :: 0 <= i < 5 ==> (OnCreateViewCalls(layoutId)[i].Inflate? <==> i == 1)
    ensures forall i :: 0 <= i < 5 ==> (OnCreateViewCalls(layoutId)[i] == InitView <==> i == 2)
    ensures forall i :: 0 <= i < 5 ==> (OnCreateViewCalls(layoutId)[i] == InitViewModel <==> i == 3)
    ensures OnCreateViewCalls(layoutId)[1] == Inflate(layoutId)
    ensures OnCreateViewCalls(layoutId)[4] == SuperOnCreateView
  {
  }

  /** Hiding calls only `hiddenGone` and showing only `hiddenVisible`, after the host. */
  lemma OnHiddenChangedDispatch(hidden: bool)
    ensures |OnHiddenChangedCalls(hidden)| == 2
    ensures OnHiddenChangedCalls(hidden)[0] == SuperOnHiddenChanged(hidden)
    ensures HiddenGone in OnHiddenChangedCalls(hidden) <==> hidden
    ensures HiddenVisible in OnHiddenChangedCalls(hidden) <==> !hidden
  {
  }

  /** `onCreateView` returns the host's result, not the inflated root view, and the
      `viewModel` getter throws whatever has happened before. */
  method OnCreateViewScenario(layoutId: int) returns (root: Option<View>, returned: Option<View>, vm: Result<ViewModelRef>)
    ensures root == Some(InflatedView(layoutId))
    ensures returned == None
    ensures vm == Throws(NullPointer)
  {
    var fragment := new BaseMviFragment();
    returned := fragment.OnCreateView(layoutId, None);
    fragment.OnHiddenChanged(true);
    root := fragment.mRootView;
    vm := fragment.ViewModel();
  }
}
