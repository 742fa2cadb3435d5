/** The view helpers: layout-parameter setters with their clamps and the margin
    sentinel, visibility, the globally throttled click listener, the fragment
    transaction helpers, and the toast dispatch with its drawable slots. */
module ViewExt {
  import opened Jvm
  import AppManager

  // ---------------------------------------------------------------------------
  // Layout parameters
  // ---------------------------------------------------------------------------

  /** `ViewGroup.LayoutParams.MATCH_PARENT` and `WRAP_CONTENT`. */
  const MatchParent: int := -1
  const WrapContent: int := -2

  /** `Int.MAX_VALUE`, the "keep the old margin" default of `margin`. */
  const IntMaxValue: int := 0x7fff_ffff

  /** A view's layout parameters; `isMargin` says whether the object is a
      `ViewGroup.MarginLayoutParams` (only those carry margins). */
  class LayoutParams {
    var width: int
    var height: int
    const isMargin: bool
    var leftMargin: int
    var topMargin: int
    var rightMargin: int
    var bottomMargin: int

    /** `ViewGroup.LayoutParams(width, height)`. */
    constructor (width: int, height: int)
      ensures this.width == width && this.height == height && !isMargin
      ensures leftMargin == 0 && topMargin == 0 && rightMargin == 0 && bottomMargin == 0
    {
      this.width, this.height := width, height;
      isMargin := false;
      leftMargin, topMargin, rightMargin, bottomMargin := 0, 0, 0, 0;
    }

    /** `ViewGroup.MarginLayoutParams(width, height)` with the given margins. */
    constructor WithMargins(width: int, height: int, left: int, top: int, right: int, bottom: int)
      ensures this.width == width && this.height == height && isMargin
      ensures leftMargin == left && topMargin == top && rightMargin == right && bottomMargin == bottom
    {
      this.width, this.height := width, height;
      isMargin := true;
      leftMargin, topMargin, rightMargin, bottomMargin := left, top, right, bottom;
    }
  }

  /** `limitHeight`/`limitWidth`'s choice: `min` below the range, else `max` above it,
      else the value itself. */
  function Limit(v: int, min: int, max: int): (r: int)
    ensures min <= max ==> min <= r <= max
    ensures min <= v <= max ==> r == v
    ensures v < min ==> r == min
    ensures min <= v && max < v ==> r == max
  {
    if v < min then min else if v > max then max else v
  }

  /** Clamping an already clamped value changes nothing. */
  lemma LimitIdempotent(v: int, min: int, max: int)
    requires min <= max
    ensures Limit(Limit(v, min, max), min, max) == Limit(v, min, max)
  {
  }

  /** With an inverted range the lower bound is tested first, so the result is `min`
      for values below it and `max` for every other value. */
  lemma LimitInverted(v: int, min: int, max: int)
    requires max < min
    ensures Limit(v, min, max) == if v < min then min else max
  {
  }

  /** One margin after `margin`: the argument, unless it is the `Int.MAX_VALUE`
      sentinel, in which case the old margin stays. */
  function MarginAfter(current: int, arg: int): (r: int)
    ensures arg == IntMaxValue ==> r == current
    ensures arg != IntMaxValue ==> r == arg
  {
    if arg != IntMaxValue then arg else current
  }

  /** A margin changes only when its argument is a real value different from it. */
  lemma MarginChangesIff(current: int, arg: int)
    ensures MarginAfter(current, arg) != current <==> arg != IntMaxValue && arg != current
  {
  }

  // ---------------------------------------------------------------------------
  // Visibility
  // ---------------------------------------------------------------------------

  datatype Visibility = Visible | Invisible | Gone

  /** `View.VISIBLE`, `View.INVISIBLE`, `View.GONE`. */
  const VisibleCode: int := 0
  const InvisibleCode: int := 4
  const GoneCode: int := 8

  /** The `View` constant a visibility is stored as. */
  function VisibilityCode(v: Visibility): int
  {
    match v
    case Visible => VisibleCode
    case Invisible => InvisibleCode
    case Gone => GoneCode
  }

  /** Distinct visibilities are stored as distinct codes, so comparing codes, as
      `isGone`/`isVisible`/`isInvisible` do, compares visibilities. */
  lemma VisibilityCodeInjective(u: Visibility, v: Visibility)
    ensures VisibilityCode(u) == VisibilityCode(v) <==> u == v
  {
  }

  /** `toggleVisibility`: GONE becomes VISIBLE, anything else becomes GONE. */
  function Toggled(v: Visibility): (r: Visibility)
    ensures r == Visible <==> v == Gone
    ensures r == Gone <==> v != Gone
  {
    if v == Gone then Visible else Gone
  }

  /** Toggling twice restores GONE and VISIBLE, but turns INVISIBLE into VISIBLE. */
  lemma ToggleTwice(v: Visibility)
    ensures Toggled(Toggled(v)) == if v == Invisible then Visible else v
  {
  }

  /** A view: its layout parameters and its visibility. */
  class View {
    var layoutParams: LayoutParams?
    var visibility: Visibility

    constructor (params: LayoutParams?, visibility: Visibility)
      ensures layoutParams == params && this.visibility == visibility
    {
      layoutParams := params;
      this.visibility := visibility;
    }

    /** The `layoutParams ?: ViewGroup.LayoutParams(MATCH_PARENT, WRAP_CONTENT)` the
        dimension setters start from. */
    method ParamsOrDefault() returns (p: LayoutParams)
      ensures layoutParams != null ==> p == layoutParams
      ensures layoutParams == null ==> (fresh(p) && !p.isMargin
        && p.width == MatchParent && p.height == WrapContent)
    {
      if layoutParams != null {
        p := layoutParams;
      } else {
        p := new LayoutParams(MatchParent, WrapContent);
      }
    }

    /** `height(h)`: only the height changes; absent parameters first default to
        MATCH_PARENT x WRAP_CONTENT. */
    method Height(h: int) returns (r: View)
      modifies this`layoutParams, layoutParams
      ensures r == this && layoutParams != null && layoutParams.height == h
      ensures old(layoutParams) != null ==> (layoutParams == old(layoutParams)
        && layoutParams.width == old(layoutParams.width)
        && unchanged(layoutParams`leftMargin, layoutParams`topMargin, layoutParams`rightMargin, layoutParams`bottomMargin))
      ensures old(layoutParams) == null ==> (fresh(layoutParams)
        && !layoutParams.isMargin && layoutParams.width == MatchParent)
    {
      var params := ParamsOrDefault();
      params.height := h;
      layoutParams := params;
      r := this;
    }

    /** `width(w)`: only the width changes. */
    method Width(w: int) returns (r: View)
      modifies this`layoutParams, layoutParams
      ensures r == this && layoutParams != null && layoutParams.width == w
      ensures old(layoutParams) != null ==> (layoutParams == old(layoutParams)
        && layoutParams.height == old(layoutParams.height)
        && unchanged(layoutParams`leftMargin, layoutParams`topMargin, layoutParams`rightMargin, layoutParams`bottomMargin))
      ensures old(layoutParams) == null ==> (fresh(layoutParams)
        && !layoutParams.isMargin && layoutParams.height == WrapContent)
    {
      var params := ParamsOrDefault();
      params.width := w;
      layoutParams := params;
      r := this;
    }

    /** `widthAndHeight(w, h)`: both dimensions change, the margins do not. */
    method WidthAndHeight(w: int, h: int) returns (r: View)
      modifies this`layoutParams, layoutParams
      ensures r == this && layoutParams != null
      ensures layoutParams.width == w && layoutParams.height == h
      ensures old(layoutParams) != null ==> (layoutParams == old(layoutParams)
        && unchanged(layoutParams`leftMargin, layoutParams`topMargin, layoutParams`rightMargin, layoutParams`bottomMargin))
      ensures old(layoutParams) == null ==> fresh(layoutParams) && !layoutParams.isMargin
    {
      var params := ParamsOrDefault();
      params.width := w;
      params.height := h;
      layoutParams := params;
      r := this;
    }

    /** `limitHeight(h, min, max)`: the height becomes `Limit(h, min, max)`. */
    method LimitHeight(h: int, min: int, max: int) returns (r: View)
      modifies this`layoutParams, layoutParams
      ensures r == this && layoutParams != null && layoutParams.height == Limit(h, min, max)
      ensures old(layoutParams) != null ==> (layoutParams == old(layoutParams)
        && layoutParams.width == old(layoutParams.width)
        && unchanged(layoutParams`leftMargin, layoutParams`topMargin, layoutParams`rightMargin, layoutParams`bottomMargin))
      ensures old(layoutParams) == null ==> (fresh(layoutParams)
        && !layoutParams.isMargin && layoutParams.width == MatchParent)
    {
      var params := ParamsOrDefault();
      if h < min {
        params.height := min;
      } else if h > max {
        params.height := max;
      } else {
        params.height := h;
      }
      layoutParams := params;
      r := this;
    }

    /** `limitWidth(w, min, max)`: the width becomes `Limit(w, min, max)`. */
    method LimitWidth(w: int, min: int, max: int) returns (r: View)
      modifies this`layoutParams, layoutParams
      ensures r == this && layoutParams != null && layoutParams.width == Limit(w, min, max)
      ensures old(layoutParams) != null ==> (layoutParams == old(layoutParams)
        && layoutParams.height == old(layoutParams.height)
        && unchanged(layoutParams`leftMargin, layoutParams`topMargin, layoutParams`rightMargin, layoutParams`bottomMargin))
      ensures old(layoutParams) == null ==> (fresh(layoutParams)
        && !layoutParams.isMargin && layoutParams.height == WrapContent)
    {
      var params := ParamsOrDefault();
      if w < min {
        params.width := min;
      } else if w > max {
        params.width := max;
      } else {
        params.width := w;
      }
      layoutParams := params;
      r := this;
    }

    /** `margin(left, top, right, bottom)`: the cast to `MarginLayoutParams` throws on
        absent parameters (`NullPointerException`) and on plain ones
        (`ClassCastException`); otherwise each margin is `MarginAfter` of its argument. */
    method Margin(left: int, top: int, right: int, bottom: int) returns (r: Result<View>)
      modifies layoutParams
      ensures layoutParams == old(layoutParams)
      ensures layoutParams == null ==> r == Throws(NullPointer)
      ensures layoutParams != null && !layoutParams.isMargin ==> (r == Throws(ClassCast)
        && unchanged(layoutParams))
      ensures layoutParams != null && layoutParams.isMargin ==> (r == Ok(this)
        && layoutParams.leftMargin == MarginAfter(old(layoutParams.leftMargin), left)
        && layoutParams.topMargin == MarginAfter(old(layoutParams.topMargin), top)
        && layoutParams.rightMargin == MarginAfter(old(layoutParams.rightMargin), right)
        && layoutParams.bottomMargin == MarginAfter(old(layoutParams.bottomMargin), bottom)
        && layoutParams.width == old(layoutParams.width)
        && layoutParams.height == old(layoutParams.height))
    {
      if layoutParams == null {
        return Throws(NullPointer);
      }
      if !layoutParams.isMargin {
        return Throws(ClassCast);
      }
      var params := layoutParams;
      if left != IntMaxValue {
        params.leftMargin := left;
      }
      if top != IntMaxValue {
        params.topMargin := top;
      }
      if right != IntMaxValue {
        params.rightMargin := right;
      }
      if bottom != IntMaxValue {
        params.bottomMargin := bottom;
      }
      r := Ok(this);
    }

    method SetGone()
      modifies this`visibility
      ensures visibility == Gone
    {
      visibility := Gone;
    }

    method SetVisible()
      modifies this`visibility
      ensures visibility == Visible
    {
      visibility := Visible;
    }

    method SetInvisible()
      modifies this`visibility
      ensures visibility == Invisible
    {
      visibility := Invisible;
    }

    /** `isGone`: `visibility == View.GONE`. */
    predicate IsGone()
      reads this
      ensures IsGone() <==> VisibilityCode(visibility) == GoneCode
    {
      visibility == Gone
    }

    /** `isVisible`: `visibility == View.VISIBLE`. */
    predicate IsVisible()
      reads this
      ensures IsVisible() <==> VisibilityCode(visibility) == VisibleCode
    {
      visibility == Visible
    }

    /** `isInvisible`: `visibility == View.INVISIBLE`. */
    predicate IsInvisible()
      reads this
      ensures IsInvisible() <==> VisibilityCode(visibility) == InvisibleCode
    {
      visibility == Invisible
    }

    /** `toggleVisibility`. */
    method ToggleVisibility()
      modifies this`visibility
      ensures visibility == Toggled(old(visibility))
      ensures IsVisible() <==> old(IsGone())
    {
      visibility := if visibility == Gone then Visible else Gone;
    }
  }

  /** A view without layout parameters: `limitHeight` stores the clamped height on fresh
      MATCH_PARENT-wide plain parameters, and `margin` on those then throws
      `ClassCastException`; on a view with no parameters at all it throws
      `NullPointerException`. */
  method LayoutScenario(h: int, min: int, max: int)
    returns (height: int, width: int, onPlain: Result<View>, onNone: Result<View>)
    ensures height == Limit(h, min, max) && width == MatchParent
    ensures onPlain == Throws(ClassCast) && onNone == Throws(NullPointer)
  {
    var v := new View(null, Visible);
    var _ := v.LimitHeight(h, min, max);
    height, width := v.layoutParams.height, v.layoutParams.width;
    onPlain := v.Margin(1, 2, 3, 4);
    var bare := new View(null, Visible);
    onNone := bare.Margin(1, 2, 3, 4);
  }

  /** On margin parameters, `margin(topMargin = t)` sets the top margin and keeps the
      other three. */
  method MarginScenario(l: int, t: int, r: int, b: int, newTop: int)
    returns (result: Result<View>, margins: seq<int>)
    requires newTop != IntMaxValue
    ensures result.Ok?
    ensures margins == [l, newTop, r, b]
  {
    var p := new LayoutParams.WithMargins(WrapContent, WrapContent, l, t, r, b);
    var v := new View(p, Visible);
    result := v.Margin(IntMaxValue, newTop, IntMaxValue, IntMaxValue);
    margins := [p.leftMargin, p.topMargin, p.rightMargin, p.bottomMargin];
  }

  // ---------------------------------------------------------------------------
  // The click throttle
  // ---------------------------------------------------------------------------

  /** The delay after which `_clickRunnable` clears the flag. */
  const ClickResetDelay: int := 350

  /** The file-level `_viewClickFlag`, the one pending `_clickRunnable` on the main
      thread's handler (its due time), and the views whose click action has run. */
  class ClickThrottle {
    var viewClickFlag: bool
    var pendingReset: Option<int>
    var performed: seq<nat>

    constructor ()
      ensures !viewClickFlag && pendingReset == None && performed == []
    {
      viewClickFlag := false;
      pendingReset := None;
      performed := [];
    }

    /** The main looper reaching time `now`: a due `_clickRunnable` runs and clears
        the flag. */
    method RunDue(now: int)
      modifies this`viewClickFlag, this`pendingReset
      ensures if old(pendingReset).Some? && old(pendingReset).value <= now
        then !viewClickFlag && pendingReset == None
        else viewClickFlag == old(viewClickFlag) && pendingReset == old(pendingReset)
    {
      if pendingReset.Some? && pendingReset.value <= now {
        viewClickFlag := false;
        pendingReset := None;
      }
    }

    /** The listener `click` installs, invoked for `view` at time `now`: the action runs
        only while the flag is clear, and every click reschedules the reset. */
    method Click(view: nat, now: int)
      modifies this
      ensures viewClickFlag
      ensures performed == old(performed) + if old(viewClickFlag) then [] else [view]
      ensures pendingReset == Some(now + ClickResetDelay)
    {
      if !viewClickFlag {
        viewClickFlag := true;
        performed := performed + [view];
      }
      pendingReset := Some(now + ClickResetDelay);
    }
  }

  /** A tap on `view` at time `time`. */
  datatype Press = Press(view: nat, time: int)

  /** Which actions run, stated without the flag: a press runs when it is the first one,
      or when the previous press, on whichever view, was at least 350 ms earlier. */
  function Throttled(presses: seq<Press>): (r: seq<nat>)
    ensures |r| <= |presses|
    ensures presses != [] ==> |r| >= 1
  {
    if presses == [] then []
    else
      var init, last := presses[..|presses| - 1], presses[|presses| - 1];
      Throttled(init) +
        (if init == [] || last.time - init[|init| - 1].time >= ClickResetDelay then [last.view] else [])
  }

  /** The main thread delivering `presses` in order, running due callbacks before each
      press: the actions that run are exactly `Throttled(presses)`. */
  method DeliverPresses(presses: seq<Press>) returns (performed: seq<nat>)
    ensures performed == Throttled(presses)
  {
    var t := new ClickThrottle();
    var i := 0;
    while i < |presses|
      invariant 0 <= i <= |presses|
      invariant t.performed == Throttled(presses[..i])
      invariant i == 0 ==> !t.viewClickFlag && t.pendingReset == None
      invariant i > 0 ==> t.viewClickFlag && t.pendingReset == Some(presses[i - 1].time + ClickResetDelay)
    {
      assert presses[..i + 1][..i] == presses[..i];
      t.RunDue(presses[i].time);
      t.Click(presses[i].view, presses[i].time);
      i := i + 1;
    }
    assert presses[..i] == presses;
    performed := t.performed;
  }

  /** A burst of presses less than 350 ms apart, on any mix of views, runs only the
      first press's action: the flag is shared by every view. */
  lemma {:induction false} BurstRunsFirstOnly(presses: seq<Press>)
    requires presses != []
    requires forall j :: 0 < j < |presses| ==> presses[j].time - presses[j - 1].time < ClickResetDelay
    ensures Throttled(presses) == [presses[0].view]
    decreases |presses|
  {
    if |presses| > 1 {
      var init := presses[..|presses| - 1];
      assert forall j :: 0 < j < |init| ==> init[j].time - init[j - 1].time < ClickResetDelay by {
        forall j | 0 < j < |init| ensures init[j].time - init[j - 1].time < ClickResetDelay {
          assert init[j] == presses[j] && init[j - 1] == presses[j - 1];
        }
      }
      BurstRunsFirstOnly(init);
      assert init[|init| - 1] == presses[|presses| - 2];
    }
  }

  /** Presses at least 350 ms apart all run, in order. */
  lemma {:induction false} SpacedPressesAllRun(presses: seq<Press>)
    requires forall j :: 0 < j < |presses| ==> presses[j].time - presses[j - 1].time >= ClickResetDelay
    ensures |Throttled(presses)| == |presses|
    ensures forall j :: 0 <= j < |presses| ==> Throttled(presses)[j] == presses[j].view
    decreases |presses|
  {
    if presses != [] {
      var init := presses[..|presses| - 1];
      assert forall j :: 0 < j < |init| ==> init[j].time - init[j - 1].time >= ClickResetDelay by {
        forall j | 0 < j < |init| ensures init[j].time - init[j - 1].time >= ClickResetDelay {
          assert init[j] == presses[j] && init[j - 1] == presses[j - 1];
        }
      }
      SpacedPressesAllRun(init);
      if init != [] {
        assert init[|init| - 1] == presses[|presses| - 2];
      }
    }
  }

  // ---------------------------------------------------------------------------
  // Fragment transactions
  // ---------------------------------------------------------------------------

  datatype Fragment = Fragment(id: nat)

  /** The `FragmentTransaction` calls the helpers make. */
  datatype FragmentOp =
    | SetCustomAnimations(enter: int, exit: int)
    | Add(frameId: int, fragment: Fragment)
    | Replace(frameId: int, fragment: Fragment)
    | Show(fragment: Fragment)
    | Hide(fragment: Fragment)

  /** `ops` preceded by `setCustomAnimations(inAnim, outAnim)` when both animations are
      given. */
  function Animated(inAnim: Option<int>, outAnim: Option<int>, ops: seq<FragmentOp>): (r: seq<FragmentOp>)
    ensures inAnim.Some? && outAnim.Some? ==> r == [SetCustomAnimations(inAnim.value, outAnim.value)] + ops
    ensures !(inAnim.Some? && outAnim.Some?) ==> r == ops
  {
    if inAnim.Some? && outAnim.Some? then [SetCustomAnimations(inAnim.value, outAnim.value)] + ops else ops
  }

  /** One single-operation transaction `make(list[j])` for each `j` in `1 until |list|`. */
  function Hides(list: seq<Fragment>): (r: seq<seq<FragmentOp>>)
    ensures |r| == if list == [] then 0 else |list| - 1
    ensures forall j :: 1 <= j < |list| ==> r[j - 1] == [Hide(list[j])]
    decreases |list|
  {
    if |list| <= 1 then [] else Hides(list[..|list| - 1]) + [[Hide(list[|list| - 1])]]
  }

  /** The transactions of `addHideFragment`'s first loop: one animated `add` per element. */
  function Adds(list: seq<Fragment>, frameId: int, inAnim: Option<int>, outAnim: Option<int>): (r: seq<seq<FragmentOp>>)
    ensures |r| == |list|
    ensures forall j :: 0 <= j < |list| ==> r[j] == Animated(inAnim, outAnim, [Add(frameId, list[j])])
    decreases |list|
  {
    if list == [] then []
    else Adds(list[..|list| - 1], frameId, inAnim, outAnim) + [Animated(inAnim, outAnim, [Add(frameId, list[|list| - 1])])]
  }

  /** The fragment manager of an activity: the transactions committed so far, each the
      list of operations it carried. */
  class FragmentManager {
    var committed: seq<seq<FragmentOp>>

    constructor ()
      ensures committed == []
    {
      committed := [];
    }

    /** `inTransaction`: begin, apply, commit. */
    method InTransaction(ops: seq<FragmentOp>)
      modifies this
      ensures committed == old(committed) + [ops]
    {
      committed := committed + [ops];
    }

    method AddFragment(fragment: Fragment, frameId: int)
      modifies this
      ensures committed == old(committed) + [[Add(frameId, fragment)]]
    {
      InTransaction([Add(frameId, fragment)]);
    }

    method ReplaceFragment(fragment: Fragment, frameId: int, inAnim: Option<int>, outAnim: Option<int>)
      modifies this
      ensures committed == old(committed) + [Animated(inAnim, outAnim, [Replace(frameId, fragment)])]
    {
      if inAnim.Some? && outAnim.Some? {
        assert Animated(inAnim, outAnim, [Replace(frameId, fragment)])
          == [SetCustomAnimations(inAnim.value, outAnim.value), Replace(frameId, fragment)];
        InTransaction([SetCustomAnimations(inAnim.value, outAnim.value), Replace(frameId, fragment)]);
      } else {
        InTransaction([Replace(frameId, fragment)]);
      }
    }

    method HideFragment(fragment: Fragment)
      modifies this
      ensures committed == old(committed) + [[Hide(fragment)]]
    {
      InTransaction([Hide(fragment)]);
    }

    method ShowFragment(fragment: Fragment)
      modifies this
      ensures committed == old(committed) + [[Show(fragment)]]
    {
      InTransaction([Show(fragment)]);
    }

    /** The loop `for (index in 1 until list.size)` both helpers end with: one
        transaction hiding each element after the first, in order. */
    method HideRest(list: seq<Fragment>)
      modifies this
      ensures committed == old(committed) + Hides(list)
    {
      var index := 1;
      while index < |list|
        invariant 1 <= index && (list != [] ==> index <= |list|)
        invariant committed == old(committed) + Hides(list[..if list == [] then 0 else index])
      {
        assert list[..index + 1][..index] == list[..index];
        InTransaction([Hide(list[index])]);
        index := index + 1;
      }
      assert list[..if list == [] then 0 else index] == list;
    }

    /** The loop over every element of `addHideFragment`: one `add` transaction each,
        animated when both animations are given. */
    method AddEach(list: seq<Fragment>, frameId: int, inAnim: Option<int>, outAnim: Option<int>)
      modifies this
      ensures committed == old(committed) + Adds(list, frameId, inAnim, outAnim)
    {
      var i := 0;
      while i < |list|
        invariant 0 <= i <= |list|
        invariant committed == old(committed) + Adds(list[..i], frameId, inAnim, outAnim)
      {
        assert list[..i + 1][..i] == list[..i];
        if inAnim.Some? && outAnim.Some? {
          assert Animated(inAnim, outAnim, [Add(frameId, list[i])])
            == [SetCustomAnimations(inAnim.value, outAnim.value), Add(frameId, list[i])];
          InTransaction([SetCustomAnimations(inAnim.value, outAnim.value), Add(frameId, list[i])]);
        } else {
          InTransaction([Add(frameId, list[i])]);
        }
        i := i + 1;
      }
      assert list[..i] == list;
    }

    /** `showHideFragment`: nothing for an empty list; otherwise one transaction showing
        `list[0]` (animated when both animations are given), then one hiding each later
        element in order. */
    method ShowHideFragment(list: seq<Fragment>, inAnim: Option<int>, outAnim: Option<int>)
      modifies this
      ensures list == [] ==> committed == old(committed)
      ensures list != [] ==> committed == old(committed) + [Animated(inAnim, outAnim, [Show(list[0])])] + Hides(list)
    {
      if list != [] {
        if inAnim.Some? && outAnim.Some? {
          assert Animated(inAnim, outAnim, [Show(list[0])])
            == [SetCustomAnimations(inAnim.value, outAnim.value), Show(list[0])];
          InTransaction([SetCustomAnimations(inAnim.value, outAnim.value), Show(list[0])]);
        } else {
          InTransaction([Show(list[0])]);
        }
        HideRest(list);
      }
    }

    /** `addHideFragment`: nothing for an empty list; otherwise one `add` per element in
        order, then one `hide` for each element after the first. */
    method AddHideFragment(list: seq<Fragment>, frameId: int, inAnim: Option<int>, outAnim: Option<int>)
      modifies this
      ensures list == [] ==> committed == old(committed)
      ensures list != [] ==> committed == old(committed) + Adds(list, frameId, inAnim, outAnim) + Hides(list)
    {
      if list != [] {
        AddEach(list, frameId, inAnim, outAnim);
        HideRest(list);
      }
    }
  }

  /** Whether `f` is shown after `ops`, starting from `prior` (`None`: never touched).
      An added or replacing fragment is shown. */
  function OpsVisibility(ops: seq<FragmentOp>, f: Fragment, prior: Option<bool>): Option<bool>
    decreases |ops|
  {
    if ops == [] then prior
    else
      var p := OpsVisibility(ops[..|ops| - 1], f, prior);
      match ops[|ops| - 1]
      case SetCustomAnimations(_, _) => p
      case Add(_, g) => if g == f then Some(true) else p
      case Replace(_, g) => if g == f then Some(true) else p
      case Show(g) => if g == f then Some(true) else p
      case Hide(g) => if g == f then Some(false) else p
  }

  /** Whether `f` is shown after the committed transactions `txs`. */
  function Shown(txs: seq<seq<FragmentOp>>, f: Fragment): Option<bool>
    decreases |txs|
  {
    if txs == [] then None
    else OpsVisibility(txs[|txs| - 1], f, Shown(txs[..|txs| - 1], f))
  }

  lemma ShownAppendOne(txs: seq<seq<FragmentOp>>, tx: seq<FragmentOp>, f: Fragment)
    ensures Shown(txs + [tx], f) == OpsVisibility(tx, f, Shown(txs, f))
  {
    assert (txs + [tx])[..|txs|] == txs;
  }

  lemma AnimatedOneVisibility(inAnim: Option<int>, outAnim: Option<int>, op: FragmentOp, f: Fragment, prior: Option<bool>)
    ensures OpsVisibility(Animated(inAnim, outAnim, [op]), f, prior) == OpsVisibility([op], f, prior)
  {
    if inAnim.Some? && outAnim.Some? {
      var ops := Animated(inAnim, outAnim, [op]);
      assert ops[..1] == [SetCustomAnimations(inAnim.value, outAnim.value)];
      assert ops[..1][..0] == [];
      assert [op][..0] == [];
    } else {
      assert [op][..0] == [];
    }
  }

  /** After `Hides(list)`, the fragments `list[1..]` are hidden and every other fragment
      is as before. */
  lemma {:induction false} ShownAfterHides(pre: seq<seq<FragmentOp>>, list: seq<Fragment>, f: Fragment)
    ensures Shown(pre + Hides(list), f) == if list != [] && f in list[1..] then Some(false) else Shown(pre, f)
    decreases |list|
  {
    if |list| <= 1 {
      assert pre + Hides(list) == pre;
    } else {
      var init, last := list[..|list| - 1], list[|list| - 1];
      var before := pre + Hides(init);
      ShownAfterHides(pre, init, f);
      assert Hides(list) == Hides(init) + [[Hide(last)]];
      assert pre + Hides(list) == before + [[Hide(last)]];
      ShownAppendOne(before, [Hide(last)], f);
      HideOneVisibility(last, f, Shown(before, f));
      assert list[1..] == init[1..] + [last];
    }
  }

  lemma HideOneVisibility(g: Fragment, f: Fragment, prior: Option<bool>)
    ensures OpsVisibility([Hide(g)], f, prior) == if g == f then Some(false) else prior
  {
    assert [Hide(g)][..0] == [];
  }

  /** After `Adds(list, ...)`, the fragments of `list` are shown and every other fragment
      is as before. */
  lemma {:induction false} ShownAfterAdds(pre: seq<seq<FragmentOp>>, list: seq<Fragment>, frameId: int,
                                          inAnim: Option<int>, outAnim: Option<int>, f: Fragment)
    ensures Shown(pre + Adds(list, frameId, inAnim, outAnim), f) == if f in list then Some(true) else Shown(pre, f)
    decreases |list|
  {
    if list == [] {
      assert pre + Adds(list, frameId, inAnim, outAnim) == pre;
    } else {
      var init, last := list[..|list| - 1], list[|list| - 1];
      ShownAfterAdds(pre, init, frameId, inAnim, outAnim, f);
      var tx := Animated(inAnim, outAnim, [Add(frameId, last)]);
      assert pre + Adds(list, frameId, inAnim, outAnim) == (pre + Adds(init, frameId, inAnim, outAnim)) + [tx];
      ShownAppendOne(pre + Adds(init, frameId, inAnim, outAnim), tx, f);
      AnimatedOneVisibility(inAnim, outAnim, Add(frameId, last), f, Shown(pre + Adds(init, frameId, inAnim, outAnim), f));
      assert [Add(frameId, last)][..0] == [];
      assert list == init + [last];
    }
  }

  /** After `showHideFragment` on distinct fragments, `list[0]` is shown, the others
      are hidden, and fragments outside the list are untouched. */
  lemma ShowHideOutcome(pre: seq<seq<FragmentOp>>, list: seq<Fragment>, inAnim: Option<int>, outAnim: Option<int>, f: Fragment)
    requires list != []
    requires forall i, j :: 0 <= i < j < |list| ==> list[i] != list[j]
    ensures var txs := pre + [Animated(inAnim, outAnim, [Show(list[0])])] + Hides(list);
      Shown(txs, f) == if f == list[0] then Some(true) else if f in list then Some(false) else Shown(pre, f)
  {
    var tx := Animated(inAnim, outAnim, [Show(list[0])]);
    ShownAfterHides(pre + [tx], list, f);
    ShownAppendOne(pre, tx, f);
    AnimatedOneVisibility(inAnim, outAnim, Show(list[0]), f, Shown(pre, f));
    assert [Show(list[0])][..0] == [];
    assert list == [list[0]] + list[1..];
    if f == list[0] {
      assert f !in list[1..];
    }
  }

  /** After `addHideFragment` on distinct fragments, `list[0]` is shown, the others are
      hidden, and fragments outside the list are untouched. */
  lemma AddHideOutcome(pre: seq<seq<FragmentOp>>, list: seq<Fragment>, frameId: int,
                       inAnim: Option<int>, outAnim: Option<int>, f: Fragment)
    requires list != []
    requires forall i, j :: 0 <= i < j < |list| ==> list[i] != list[j]
    ensures var txs := pre + Adds(list, frameId, inAnim, outAnim) + Hides(list);
      Shown(txs, f) == if f == list[0] then Some(true) else if f in list then Some(false) else Shown(pre, f)
  {
    ShownAfterHides(pre + Adds(list, frameId, inAnim, outAnim), list, f);
    ShownAfterAdds(pre, list, frameId, inAnim, outAnim, f);
    assert list == [list[0]] + list[1..];
    if f == list[0] {
      assert f !in list[1..];
    }
  }

  /** Three tabs: `showHideFragment([a, b, c])` without animations commits show a, hide
      b, hide c; `addHideFragment` first adds all three with the animations. */
  method TabsScenario(a: Fragment, b: Fragment, c: Fragment, frameId: int, enter: int, exit: int)
    returns (showHide: seq<seq<FragmentOp>>, addHide: seq<seq<FragmentOp>>)
    ensures showHide == [[Show(a)], [Hide(b)], [Hide(c)]]
    ensures addHide == [[SetCustomAnimations(enter, exit), Add(frameId, a)],
                        [SetCustomAnimations(enter, exit), Add(frameId, b)],
                        [SetCustomAnimations(enter, exit), Add(frameId, c)],
                        [Hide(b)], [Hide(c)]]
  {
    var m := new FragmentManager();
    m.ShowHideFragment([a, b, c], None, None);
    showHide := m.committed;
    var n := new FragmentManager();
    n.AddHideFragment([a, b, c], frameId, Some(enter), Some(exit));
    addHide := n.committed;
    var adds := Adds([a, b, c], frameId, Some(enter), Some(exit));
    assert adds[0] == [SetCustomAnimations(enter, exit)] + [Add(frameId, a)] == [SetCustomAnimations(enter, exit), Add(frameId, a)];
    assert adds[1] == [SetCustomAnimations(enter, exit)] + [Add(frameId, b)] == [SetCustomAnimations(enter, exit), Add(frameId, b)];
    assert adds[2] == [SetCustomAnimations(enter, exit)] + [Add(frameId, c)] == [SetCustomAnimations(enter, exit), Add(frameId, c)];
    var hides := Hides([a, b, c]);
    assert hides[0] == [Hide(b)] && hides[1] == [Hide(c)];
    assert adds == [adds[0], adds[1], adds[2]] && hides == [hides[0], hides[1]];
    assert addHide == adds + hides;
  }

  // ---------------------------------------------------------------------------
  // Toasts
  // ---------------------------------------------------------------------------

  /** `Toast.LENGTH_SHORT` and `Toast.LENGTH_LONG`. */
  const LengthShort: int := 0
  const LengthLong: int := 1

  datatype Drawable = Drawable(id: nat)

  /** The `@ShowOrientation` constants. */
  datatype ShowOrientation = Start | Top | End | Bottom

  function OrientationCode(o: ShowOrientation): int
  {
    match o
    case Start => 0
    case Top => 1
    case End => 2
    case Bottom => 3
  }

  /** The orientation an int stands for, if it is one of the four constants. */
  function OrientationOf(code: int): (o: Option<ShowOrientation>)
    ensures o.Some? <==> 0 <= code <= 3
  {
    if code == 0 then Some(Start)
    else if code == 1 then Some(Top)
    else if code == 2 then Some(End)
    else if code == 3 then Some(Bottom)
    else None
  }

  lemma OrientationRoundTrip(o: ShowOrientation, code: int)
    ensures OrientationOf(OrientationCode(o)) == Some(o)
    ensures OrientationOf(code).Some? ==> OrientationCode(OrientationOf(code).value) == code
  {
  }

  /** The duration `showShort`/`showLong` pass for a show type of 0 or 1. */
  function DurationOf(showType: int): int
  {
    if showType == 0 then LengthShort else LengthLong
  }

  /** `showToast(type)`: the duration a toast is shown with, or `None` when nothing is
      shown (no top activity, or a type other than 0 and 1). `showToast()` is
      `ToastDispatch(top, 0)`. */
  function ToastDispatch(top: Option<AppManager.Activity>, showType: int): (d: Option<int>)
    ensures d.Some? <==> top.Some? && (showType == 0 || showType == 1)
    ensures d.Some? ==> d.value == (if showType == 0 then LengthShort else LengthLong)
  {
    if top.Some? then
      if showType == 0 then Some(LengthShort)
      else if showType == 1 then Some(LengthLong)
      else None
    else None
  }

  /** `showToast()` shows a short toast exactly when there is a top activity. */
  lemma DefaultToastIsShort(top: Option<AppManager.Activity>)
    ensures ToastDispatch(top, 0) == if top.Some? then Some(LengthShort) else None
  {
  }

  /** `showToast(view, showOrientation, showType)`: the duration and orientation the
      toast is shown with, or `None` when the orientation is not one of the four
      constants, there is no top activity, or the show type is not 0 or 1. */
  function ToastDispatchWithDrawable(top: Option<AppManager.Activity>, showOrientation: Option<int>,
                                     showType: Option<int>): (r: Option<(int, ShowOrientation)>)
    ensures r.Some? <==> (showOrientation.Some? && OrientationOf(showOrientation.value).Some?
      && top.Some? && showType.Some? && (showType.value == 0 || showType.value == 1))
    ensures r.Some? ==> (r.value.0 == DurationOf(showType.value)
      && OrientationCode(r.value.1) == showOrientation.value)
  {
    if showOrientation.None? then None
    else
      match OrientationOf(showOrientation.value)
      case None => None
      case Some(o) =>
        if top.None? || showType.None? then None
        else if showType.value == 0 then Some((LengthShort, o))
        else if showType.value == 1 then Some((LengthLong, o))
        else None
  }

  /** The default arguments (`START`, type 1) show a long toast with the drawable at the
      start, whenever there is a top activity. */
  lemma DrawableToastDefaults(top: Option<AppManager.Activity>)
    ensures ToastDispatchWithDrawable(top, Some(0), Some(1)) == if top.Some? then Some((LengthLong, Start)) else None
  {
  }

  /** The drawables `show(text, duration, view, showOrientation)` builds: `view` in the
      orientation's slot and nothing elsewhere (nothing at all for another value). */
  function Slots(view: Option<Drawable>, orientation: int): (s: seq<Option<Drawable>>)
    ensures |s| == 4
    ensures forall i :: 0 <= i < 4 ==> s[i] == if i == orientation then view else None
  {
    match OrientationOf(orientation)
    case Some(Start) => [view, None, None, None]
    case Some(Top) => [None, view, None, None]
    case Some(End) => [None, None, view, None]
    case Some(Bottom) => [None, None, None, view]
    case None => [None, None, None, None]
  }

  /** The delay after which `AbsToast.show` cancels the toast. */
  function CancelDelay(duration: int): (ms: int)
    ensures duration == LengthShort ==> ms == 2000
    ensures duration != LengthShort ==> ms == 3500
  {
    if duration == LengthShort then 2000 else 3500
  }

  /** The calls `AbsToast` makes on its `Toast` and `Handler`. */
  datatype ToastCall = SetDuration(duration: int) | ShowOnScreen | PostCancel(delayMs: int) | CancelOnScreen

  /** `AbsToast`: whether `toast` and `HANDLER` are still set, the four drawable slots,
      the text set on its view, and the calls made so far. */
  class AbsToast {
    var hasToast: bool
    var hasHandler: bool
    const drawableArray: array<Option<Drawable>>
    var text: Option<string>
    var calls: seq<ToastCall>

    ghost predicate Valid()
    {
      drawableArray.Length == 4
    }

    constructor ()
      ensures Valid() && fresh(drawableArray)
      ensures hasToast && hasHandler && text == None && calls == []
      ensures drawableArray[..] == [None, None, None, None]
    {
      hasToast, hasHandler := true, true;
      text := None;
      calls := [];
      drawableArray := new Option<Drawable>[4](_ => None);
    }

    /** `setDrawables`: copies slots 0 to 3 in order; an input shorter than four
        throws `ArrayIndexOutOfBoundsException` after copying what it has. */
    method SetDrawables(drawables: array<Option<Drawable>>) returns (r: Result<AbsToast>)
      requires Valid() && drawables != drawableArray
      modifies drawableArray
      ensures var n := if drawables.Length < 4 then drawables.Length else 4;
        drawableArray[..n] == drawables[..n] && drawableArray[n..] == old(drawableArray[n..])
      ensures r == if drawables.Length >= 4 then Ok(this) else Throws(ArrayIndexOutOfBounds)
    {
      if drawables.Length < 1 {
        return Throws(ArrayIndexOutOfBounds);
      }
      drawableArray[0] := drawables[0];
      if drawables.Length < 2 {
        return Throws(ArrayIndexOutOfBounds);
      }
      drawableArray[1] := drawables[1];
      if drawables.Length < 3 {
        return Throws(ArrayIndexOutOfBounds);
      }
      drawableArray[2] := drawables[2];
      if drawables.Length < 4 {
        return Throws(ArrayIndexOutOfBounds);
      }
      drawableArray[3] := drawables[3];
      r := Ok(this);
    }

    /** `setTextView`: the text shown in the toast's view. */
    method SetTextView(t: string) returns (r: AbsToast)
      modifies this`text
      ensures text == Some(t) && r == this
    {
      text := Some(t);
      r := this;
    }

    /** `show(duration)`: sets the duration and shows the toast while it is set, and
        schedules the cancel while the handler is set. */
    method Show(duration: int)
      modifies this`calls
      ensures calls == old(calls)
        + (if hasToast then [SetDuration(duration), ShowOnScreen] else [])
        + (if hasHandler then [PostCancel(CancelDelay(duration))] else [])
    {
      if hasToast {
        calls := calls + [SetDuration(duration), ShowOnScreen];
      }
      if hasHandler {
        calls := calls + [PostCancel(if duration == LengthShort then 2000 else 3500)];
      }
    }

    /** `cancel`, run by the posted callback: cancels the toast if still set, then
        drops both the toast and the handler. */
    method Cancel()
      modifies this`calls, this`hasToast, this`hasHandler
      ensures calls == old(calls) + if old(hasToast) then [CancelOnScreen] else []
      ensures !hasToast && !hasHandler
    {
      if hasToast {
        calls := calls + [CancelOnScreen];
      }
      hasToast, hasHandler := false, false;
    }
  }

  /** `show(text, duration)`: a fresh toast with no drawables shows `text` and cancels
      itself after the duration's delay. */
  method ShowText(t: string, duration: int) returns (slots: seq<Option<Drawable>>, shownText: Option<string>, calls: seq<ToastCall>)
    ensures slots == [None, None, None, None] && shownText == Some(t)
    ensures calls == [SetDuration(duration), ShowOnScreen, PostCancel(CancelDelay(duration))]
  {
    var toast := new AbsToast();
    var _ := toast.SetTextView(t);
    toast.Show(duration);
    slots, shownText, calls := toast.drawableArray[..], toast.text, toast.calls;
  }

  /** `show(text, duration, view, showOrientation)`: the toast carries `view` in the
      orientation's slot, shows `text`, and schedules its cancel after the duration's
      delay. */
  method ShowTextWithDrawable(t: string, duration: int, view: Option<Drawable>, showOrientation: int)
    returns (slots: seq<Option<Drawable>>, shownText: Option<string>, calls: seq<ToastCall>)
    ensures slots == Slots(view, showOrientation) && shownText == Some(t)
    ensures calls == [SetDuration(duration), ShowOnScreen, PostCancel(CancelDelay(duration))]
  {
    var drawables := new Option<Drawable>[4](_ => None);
    if showOrientation == 0 {
      drawables[0] := view;
    } else if showOrientation == 1 {
      drawables[1] := view;
    } else if showOrientation == 2 {
      drawables[2] := view;
    } else if showOrientation == 3 {
      drawables[3] := view;
    }
    var toast := new AbsToast();
    var r := toast.SetDrawables(drawables);
    assert drawables[..] == Slots(view, showOrientation);
    var _ := toast.SetTextView(t);
    toast.Show(duration);
    slots, shownText, calls := toast.drawableArray[..], toast.text, toast.calls;
  }

  /** Once the posted cancel has run, the toast is cancelled exactly once, and showing
      the same `AbsToast` again makes no call at all. */
  method CancelThenShowScenario(duration: int) returns (calls: seq<ToastCall>)
    ensures calls == [SetDuration(duration), ShowOnScreen, PostCancel(CancelDelay(duration)), CancelOnScreen]
  {
    var toast := new AbsToast();
    toast.Show(duration);
    toast.Cancel();
    toast.Cancel();
    toast.Show(duration);
    calls := toast.calls;
  }
}
