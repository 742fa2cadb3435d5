/** The activity base template: `onCreate` runs the host's `onCreate`, sets the layout
    the subclass names, then calls the subclass hooks `initView` and `initViewModel`. */
module BaseMviActivity {
  import opened Jvm

  /** A call `onCreate` makes: into the host superclass or into a subclass hook. */
  datatype ActivityCall =
    | SuperOnCreate
    | InitVariableId
    | SetContentView(layoutId: int)
    | InitView
    | InitViewModel

  /** The hooks run by one `onCreate`, in order. */
  function OnCreateCalls(layoutId: int): seq<ActivityCall>
  {
    [SuperOnCreate, InitVariableId, SetContentView(layoutId), InitView, InitViewModel]
  }

  /** `VM` is the subclass's view model type; it is an opaque identity here. */
  datatype ViewModelRef = ViewModelRef(id: nat)

  class BaseMviActivity {
    /** `_viewModel`: private, so nothing but this class could assign it, and it never does. */
    var viewModelField: Option<ViewModelRef>
    /** Every call made so far, in order. */
    var calls: seq<ActivityCall>

    constructor ()
      ensures viewModelField == None && calls == []
    {
      viewModelField := None;
      calls := [];
    }

    /** `onCreate(savedInstanceState)`; `layoutId` is the value the subclass's
        `initVariableId()` returns. */
    method OnCreate(layoutId: int)
      modifies this`calls
      ensures calls == old(calls) + OnCreateCalls(layoutId)
    {
      calls := calls + [SuperOnCreate];
      calls := calls + [InitVariableId];
      calls := calls + [SetContentView(layoutId)];
      calls := calls + [InitView];
      calls := calls + [InitViewModel];
    }

    /** The `viewModel` getter: `_viewModel!!`. */
    method ViewModel() returns (r: Result<ViewModelRef>)
      ensures viewModelField.None? ==> r == Throws(NullPointer)
      ensures viewModelField.Some? ==> r == Ok(viewModelField.value)
    {
      if viewModelField.None? {
        return Throws(NullPointer);
      }
      return Ok(viewModelField.value);
    }
  }

  /** One `onCreate` calls `initVariableId`, `initView` and `initViewModel` exactly once
      each, `initView` before `initViewModel`, both after the content view has been set
      to the id `initVariableId` returned. */
  lemma OnCreateOrder(layoutId: int)
    ensures |OnCreateCalls(layoutId)| == 5
    ensures forall i :: 0 <= i < 5 ==> (OnCreateCalls(layoutId)[i] == InitView <==> i == 3)
    ensures forall i :: 0 <= i < 5 ==> (OnCreateCalls(layoutId)[i] == InitViewModel <==> i == 4)
    ensures forall i :: 0 <= i < 5 ==> (OnCreateCalls(layoutId)[i] == InitVariableId <==> i == 1)
    ensures forall i :: 0 <= i < 5 ==> (OnCreateCalls(layoutId)[i].SetContentView? <==> i == 2)
    ensures OnCreateCalls(layoutId)[2] == SetContentView(layoutId)
  {
  }

  /** Nothing assigns `_viewModel`: after construction and any number of `onCreate`
      calls, the `viewModel` getter throws. */
  method ViewModelNeverAssigned(layoutId: int) returns (r: Result<ViewModelRef>)
    ensures r == Throws(NullPointer)
  {
    var activity := new BaseMviActivity();
    activity.OnCreate(layoutId);
    r := activity.ViewModel();
  }
}
