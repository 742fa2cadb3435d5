/** The activity registry: an ordered stack of live activities kept up to date by the
    host's lifecycle callbacks, the application those callbacks are registered with,
    queries for the top activity and the foreground state, and the bulk finish and
    exit operations. Calls into the host (callback registration, `Activity.finish`,
    process kill and exit) are recorded, in order, in a call trace. */
module AppManager {
  import opened Jvm

  /** An activity instance: its identity and the name of its class. */
  datatype Activity = Activity(id: nat, cls: string)

  /** An application instance: its identity and its package name. */
  datatype Application = Application(id: nat, packageName: string)

  /** What `getAppContext` hands out: the application's own context. */
  datatype Context = ApplicationContext(app: Application)

  /** One entry of the host's running-process table. */
  datatype ProcessInfo = ProcessInfo(processName: string, importance: int)

  /** `ActivityManager.RunningAppProcessInfo.IMPORTANCE_FOREGROUND`. */
  const ImportanceForeground: int := 100

  /** The calls the registry makes into the host, in the order it makes them. */
  datatype HostCall =
    | RegisterCallbacks(app: Application)
    | UnregisterCallbacks(app: Application)
    | Finish(activity: Activity)
    | KillBackgroundProcesses(packageName: string)
    | ExitProcess(status: int)

  // ---------------------------------------------------------------------------
  // The stack as a value
  // ---------------------------------------------------------------------------

  /** The top of the stack, as `getTopActivity` reports it. */
  function Top(s: seq<Activity>): (r: Option<Activity>)
    ensures r.None? <==> s == []
    ensures r.Some? ==> s == s[..|s| - 1] + [r.value]
  {
    if s == [] then None else Some(s[|s| - 1])
  }

  /** `Vector.indexOf`: the first position holding `a`, or -1. */
  function IndexOf(s: seq<Activity>, a: Activity): (k: int)
    ensures -1 <= k < |s|
    ensures k == -1 <==> a !in s
    ensures 0 <= k ==> s[k] == a && a !in s[..k]
  {
    if s == [] then -1
    else if s[0] == a then 0
    else
      var k := IndexOf(s[1..], a);
      assert s[1..][..(if k < 0 then 0 else k)] == s[1..(if k < 0 then 1 else k + 1)];
      if k == -1 then -1 else k + 1
  }

  /** `Vector.remove(Object)`: drop the first occurrence of `a`, if any; every other
      element keeps its relative order. */
  function RemoveFirst(s: seq<Activity>, a: Activity): (r: seq<Activity>)
    ensures a !in s ==> r == s
    ensures a in s ==> |r| == |s| - 1
    ensures multiset(r) == multiset(s) - multiset{a}
  {
    var k := IndexOf(s, a);
    if k < 0 then s
    else
      assert s == s[..k] + [s[k]] + s[k + 1..];
      s[..k] + s[k + 1..]
  }

  /** The calls `finishAllActivity` makes: `finish` on every element, by index,
      from position 0 (the oldest activity) upwards. */
  function FinishEach(s: seq<Activity>): (r: seq<HostCall>)
    ensures |r| == |s|
    ensures forall i :: 0 <= i < |r| ==> r[i].Finish?
  {
    if s == [] then [] else FinishEach(s[..|s| - 1]) + [Finish(s[|s| - 1])]
  }

  /** The activities a call trace finishes, in order. */
  function Finished(t: seq<HostCall>): seq<Activity>
  {
    if t == [] then []
    else Finished(t[..|t| - 1]) + (if t[|t| - 1].Finish? then [t[|t| - 1].activity] else [])
  }

  /** Kotlin's `reversed()`: a reversed copy. */
  function Reversed(s: seq<Activity>): (r: seq<Activity>)
    ensures |r| == |s|
    ensures forall i :: 0 <= i < |s| ==> r[i] == s[|s| - 1 - i]
  {
    if s == [] then [] else [s[|s| - 1]] + Reversed(s[..|s| - 1])
  }

  /** The first position holding an activity of class `cla`, or -1. */
  function FirstOfClass(s: seq<Activity>, cla: string): (k: int)
    ensures -1 <= k < |s|
    ensures k == -1 <==> forall i :: 0 <= i < |s| ==> s[i].cls != cla
    ensures 0 <= k ==> s[k].cls == cla && forall i :: 0 <= i < k ==> s[i].cls != cla
  {
    if s == [] then -1
    else if s[0].cls == cla then 0
    else
      var k := FirstOfClass(s[1..], cla);
      if k == -1 then -1 else k + 1
  }

  /** How many callback registrations a call trace leaves in place, per application. */
  function Registrations(t: seq<HostCall>): multiset<Application>
  {
    if t == [] then multiset{}
    else
      var before := Registrations(t[..|t| - 1]);
      match t[|t| - 1]
      case RegisterCallbacks(a) => before + multiset{a}
      case UnregisterCallbacks(a) => before - multiset{a}
      case _ => before
  }

  lemma RegistrationsAppend(t: seq<HostCall>, c: HostCall)
    ensures c.RegisterCallbacks? ==> Registrations(t + [c]) == Registrations(t) + multiset{c.app}
    ensures c.UnregisterCallbacks? ==> Registrations(t + [c]) == Registrations(t) - multiset{c.app}
    ensures !c.RegisterCallbacks? && !c.UnregisterCallbacks? ==> Registrations(t + [c]) == Registrations(t)
  {
    assert (t + [c])[..|t|] == t;
  }

  lemma FinishedAppend(t: seq<HostCall>, c: HostCall)
    ensures Finished(t + [c]) == Finished(t) + (if c.Finish? then [c.activity] else [])
  {
    assert (t + [c])[..|t|] == t;
  }

  lemma {:induction false} RegistrationsFinishEach(t: seq<HostCall>, s: seq<Activity>)
    ensures Registrations(t + FinishEach(s)) == Registrations(t)
    decreases |s|
  {
    if s == [] {
      assert t + FinishEach(s) == t;
    } else {
      var init := s[..|s| - 1];
      RegistrationsFinishEach(t, init);
      assert FinishEach(s) == FinishEach(init) + [Finish(s[|s| - 1])];
      assert t + FinishEach(s) == (t + FinishEach(init)) + [Finish(s[|s| - 1])];
      RegistrationsAppend(t + FinishEach(init), Finish(s[|s| - 1]));
      assert Registrations(t + FinishEach(s)) == Registrations(t + FinishEach(init));
    }
  }

  // ---------------------------------------------------------------------------
  // Properties of the stack operations
  // ---------------------------------------------------------------------------

  /** `onActivityCreated` puts the new activity on top. */
  lemma TopAfterCreated(s: seq<Activity>, a: Activity)
    ensures Top(s + [a]) == Some(a)
    ensures (s + [a])[..|s|] == s
  {
  }

  /** Removing an activity that is not on top leaves the top where it was. */
  lemma TopAfterRemovingOther(s: seq<Activity>, a: Activity)
    requires s != [] && a != s[|s| - 1]
    ensures Top(RemoveFirst(s, a)) == Top(s)
  {
    var k := IndexOf(s, a);
    if 0 <= k {
      assert k < |s| - 1;
      assert RemoveFirst(s, a)[|s| - 2] == s[|s| - 1];
    }
  }

  /** `Vector.remove(Object)` removes exactly the first occurrence and keeps the order
      of everything else. */
  lemma RemoveFirstShape(s: seq<Activity>, a: Activity, k: nat)
    requires k < |s| && s[k] == a && a !in s[..k]
    ensures RemoveFirst(s, a) == s[..k] + s[k + 1..]
  {
    var j := IndexOf(s, a);
    assert j == k;
  }

  /** Removing an activity that occurs once removes every occurrence of it. */
  lemma RemoveFirstUnique(s: seq<Activity>, a: Activity)
    requires multiset(s)[a] <= 1
    ensures a !in RemoveFirst(s, a)
  {
    var r := RemoveFirst(s, a);
    assert multiset(r)[a] == 0;
  }

  lemma {:induction false} FinishEachAt(s: seq<Activity>, i: nat)
    requires i < |s|
    ensures |FinishEach(s)| == |s|
    ensures FinishEach(s)[i] == Finish(s[i])
    decreases |s|
  {
    var init := s[..|s| - 1];
    if i < |s| - 1 {
      FinishEachAt(init, i);
    } else if init != [] {
      FinishEachAt(init, 0);
    }
  }

  /** `finishAllActivity` finishes the activities exactly in creation order, oldest
      first: the finished sequence is the stack itself. */
  lemma {:induction false} FinishEachOrder(s: seq<Activity>)
    ensures Finished(FinishEach(s)) == s
    decreases |s|
  {
    if s != [] {
      var init := s[..|s| - 1];
      FinishEachOrder(init);
      FinishedAppend(FinishEach(init), Finish(s[|s| - 1]));
    }
  }

  /** Every live activity is finished exactly as often as it is on the stack. */
  lemma FinishEachExactlyOnce(s: seq<Activity>)
    ensures multiset(Finished(FinishEach(s))) == multiset(s)
  {
    FinishEachOrder(s);
  }

  /** Despite the `reversed()` in the loop header, the order is not top-first: for two
      distinct activities the finish order differs from the reversed stack. */
  lemma FinishEachNotTopFirst(a: Activity, b: Activity)
    requires a != b
    ensures Finished(FinishEach([a, b])) == [a, b]
    ensures Finished(FinishEach([a, b])) != Reversed([a, b])
  {
    FinishEachOrder([a, b]);
  }

  // ---------------------------------------------------------------------------
  // Replaying lifecycle notifications
  // ---------------------------------------------------------------------------

  /** Some entry of the process table is in the foreground and carries `packageName`. */
  ghost predicate ForegroundEntry(procs: seq<ProcessInfo>, packageName: string)
  {
    exists i :: 0 <= i < |procs| && procs[i].importance == ImportanceForeground && procs[i].processName == packageName
  }

  /** A lifecycle notification the host delivers to the registered callbacks. */
  datatype Lifecycle = Created(activity: Activity) | Destroyed(activity: Activity)

  /** The stack after delivering `evs`, in order, to an empty registry. */
  function Replay(evs: seq<Lifecycle>): (r: seq<Activity>)
    ensures |r| <= |evs|
    ensures forall a :: a in r ==> Created(a) in evs
  {
    if evs == [] then []
    else
      var s := Replay(evs[..|evs| - 1]);
      var e := evs[|evs| - 1];
      if e.Created? then s + [e.activity] else RemoveFirst(s, e.activity)
  }

  /** What one notification contributes to the live sequence: a creation that `all`
      never undoes. */
  function LiveTail(e: Lifecycle, all: seq<Lifecycle>): seq<Activity>
  {
    if e.Created? && Destroyed(e.activity) !in all then [e.activity] else []
  }

  /** Reference definition: the activities created in `evs`, in creation order, that
      `all` never destroys. */
  function Live(evs: seq<Lifecycle>, all: seq<Lifecycle>): seq<Activity>
  {
    if evs == [] then [] else Live(evs[..|evs| - 1], all) + LiveTail(evs[|evs| - 1], all)
  }

  /** The host creates each activity at most once and destroys it only after creating it. */
  ghost predicate WellFormed(evs: seq<Lifecycle>)
  {
    && (forall i, j :: 0 <= i < j < |evs| ==> evs[i] != evs[j])
    && (forall i, j :: 0 <= i < |evs| && 0 <= j < |evs| && evs[i].Destroyed? && evs[j] == Created(evs[i].activity) ==> j < i)
  }

  lemma {:induction false} LiveIgnoresCreated(evs: seq<Lifecycle>, all: seq<Lifecycle>, a: Activity)
    ensures Live(evs, all + [Created(a)]) == Live(evs, all)
    decreases |evs|
  {
    if evs != [] {
      LiveIgnoresCreated(evs[..|evs| - 1], all, a);
      assert LiveTail(evs[|evs| - 1], all + [Created(a)]) == LiveTail(evs[|evs| - 1], all);
    }
  }

  /** `s` with every occurrence of `a` filtered out. */
  function Without(s: seq<Activity>, a: Activity): seq<Activity>
  {
    if s == [] then []
    else Without(s[..|s| - 1], a) + (if s[|s| - 1] == a then [] else [s[|s| - 1]])
  }

  lemma {:induction false} WithoutAppend(s: seq<Activity>, t: seq<Activity>, a: Activity)
    ensures Without(s + t, a) == Without(s, a) + Without(t, a)
    decreases |t|
  {
    if t == [] {
      assert s + t == s;
    } else {
      var init := t[..|t| - 1];
      assert (s + t)[..|s + t| - 1] == s + init;
      WithoutAppend(s, init, a);
    }
  }

  lemma {:induction false} WithoutAbsent(s: seq<Activity>, a: Activity)
    requires a !in s
    ensures Without(s, a) == s
    decreases |s|
  {
    if s != [] {
      var init := s[..|s| - 1];
      assert a !in init;
      WithoutAbsent(init, a);
    }
  }

  lemma SingleOccurrence(pre: seq<Activity>, a: Activity, post: seq<Activity>)
    requires multiset(pre + [a] + post)[a] <= 1
    ensures a !in pre && a !in post
  {
    assert multiset(pre + [a] + post) == multiset(pre) + multiset{a} + multiset(post);
  }

  lemma WithoutSingle(a: Activity)
    ensures Without([a], a) == []
  {
    assert [a][..0] == [];
  }

  lemma WithoutSplit(pre: seq<Activity>, a: Activity, post: seq<Activity>)
    requires a !in pre && a !in post
    ensures Without(pre + [a] + post, a) == pre + post
  {
    var w1 := Without(pre + [a], a);
    WithoutAppend(pre + [a], post, a);
    WithoutAppend(pre, [a], a);
    WithoutSingle(a);
    WithoutAbsent(pre, a);
    WithoutAbsent(post, a);
    assert w1 == pre;
  }

  /** Removing the first occurrence of an element that occurs at most once is the
      same as filtering it out. */
  lemma RemoveFirstIsWithout(s: seq<Activity>, a: Activity)
    requires multiset(s)[a] <= 1
    ensures RemoveFirst(s, a) == Without(s, a)
  {
    var k := IndexOf(s, a);
    if k < 0 {
      WithoutAbsent(s, a);
    } else {
      var pre, post := s[..k], s[k + 1..];
      assert s == pre + [a] + post;
      SingleOccurrence(pre, a, post);
      WithoutSplit(pre, a, post);
    }
  }

  /** Destroying `a` filters `a` out of the live sequence. */
  lemma {:induction false} LiveDestroyed(evs: seq<Lifecycle>, all: seq<Lifecycle>, a: Activity)
    ensures Live(evs, all + [Destroyed(a)]) == Without(Live(evs, all), a)
    decreases |evs|
  {
    if evs != [] {
      var init := evs[..|evs| - 1];
      var e := evs[|evs| - 1];
      LiveDestroyed(init, all, a);
      WithoutAppend(Live(init, all), LiveTail(e, all), a);
      assert Without(LiveTail(e, all), a) == LiveTail(e, all + [Destroyed(a)]) by {
        if LiveTail(e, all) != [] {
          assert LiveTail(e, all)[..0] == [];
        }
      }
    }
  }

  /** An activity created at most once in `evs` is live at most once. */
  lemma {:induction false} LiveCount(evs: seq<Lifecycle>, all: seq<Lifecycle>, a: Activity)
    requires forall i, j :: 0 <= i < j < |evs| ==> evs[i] != evs[j]
    ensures multiset(Live(evs, all))[a] <= 1
    ensures Created(a) !in evs ==> a !in Live(evs, all)
    decreases |evs|
  {
    if evs != [] {
      var init := evs[..|evs| - 1];
      LiveCount(init, all, a);
      assert multiset(Live(evs, all)) == multiset(Live(init, all)) + multiset(LiveTail(evs[|evs| - 1], all));
      if evs[|evs| - 1] == Created(a) {
        assert Created(a) !in init;
      } else {
        assert Created(a) in evs ==> Created(a) in init by {
          if Created(a) in evs {
            var i :| 0 <= i < |evs| && evs[i] == Created(a);
            assert i < |evs| - 1 && init[i] == Created(a);
          }
        }
      }
    }
  }

  /** One inductive step of `ReplayIsLive`, for a creation. */
  lemma ReplayCreatedStep(init: seq<Lifecycle>, a: Activity)
    requires Replay(init) == Live(init, init)
    requires Destroyed(a) !in init
    ensures Replay(init + [Created(a)]) == Live(init + [Created(a)], init + [Created(a)])
  {
    var evs := init + [Created(a)];
    assert evs[..|evs| - 1] == init;
    LiveIgnoresCreated(init, init, a);
    assert Destroyed(a) !in evs;
  }

  /** One inductive step of `ReplayIsLive`, for a destruction. */
  lemma ReplayDestroyedStep(init: seq<Lifecycle>, a: Activity)
    requires Replay(init) == Live(init, init)
    requires forall i, j :: 0 <= i < j < |init| ==> init[i] != init[j]
    ensures Replay(init + [Destroyed(a)]) == Live(init + [Destroyed(a)], init + [Destroyed(a)])
  {
    var evs := init + [Destroyed(a)];
    assert evs[..|evs| - 1] == init;
    var live := Live(init, init);
    assert Replay(evs) == RemoveFirst(live, a);
    assert Live(evs, evs) == Live(init, evs) + LiveTail(Destroyed(a), evs);
    assert LiveTail(Destroyed(a), evs) == [];
    LiveDestroyed(init, init, a);
    LiveCount(init, init, a);
    RemoveFirstIsWithout(live, a);
  }

  /** `getTopActivity` after any well-formed sequence of lifecycle notifications is the
      most recently created activity that has not been destroyed; the whole stack is
      the live activities in creation order. */
  lemma {:induction false} ReplayIsLive(evs: seq<Lifecycle>)
    requires WellFormed(evs)
    ensures Replay(evs) == Live(evs, evs)
    ensures Top(Replay(evs)) == Top(Live(evs, evs))
    decreases |evs|
  {
    if evs != [] {
      var init, e := evs[..|evs| - 1], evs[|evs| - 1];
      assert evs == init + [e];
      assert WellFormed(init) by {
        forall i, j | 0 <= i < |init| && 0 <= j < |init| && init[i].Destroyed? && init[j] == Created(init[i].activity)
          ensures j < i
        {
          assert evs[i] == init[i] && evs[j] == init[j];
        }
      }
      ReplayIsLive(init);
      if e.Created? {
        assert Destroyed(e.activity) !in init;
        ReplayCreatedStep(init, e.activity);
      } else {
        ReplayDestroyedStep(init, e.activity);
      }
    }
  }

  // ---------------------------------------------------------------------------
  // The registry object
  // ---------------------------------------------------------------------------

  class AppManager {
    var activityStack: seq<Activity>
    var app: Option<Application>
    /** Every call made into the host, in order. */
    var calls: seq<HostCall>
    /** Set once `exitProcess` has been called. */
    var terminated: bool

    /** The lifecycle callbacks are registered exactly once, with `app`, and with no
        other application. */
    ghost predicate Valid()
      reads this`calls, this`app
    {
      Registrations(calls) == if app.Some? then multiset{app.value} else multiset{}
    }

    constructor ()
      ensures Valid()
      ensures activityStack == [] && app == None && calls == [] && !terminated
    {
      activityStack := [];
      app := None;
      calls := [];
      terminated := false;
    }

    method Register(a: Option<Application>)
      modifies this`calls
      ensures calls == old(calls) + if a.Some? then [RegisterCallbacks(a.value)] else []
    {
      if a.Some? {
        calls := calls + [RegisterCallbacks(a.value)];
      }
    }

    method Unregister(a: Option<Application>)
      modifies this`calls
      ensures calls == old(calls) + if a.Some? then [UnregisterCallbacks(a.value)] else []
    {
      if a.Some? {
        calls := calls + [UnregisterCallbacks(a.value)];
      }
    }

    /** `init`: a null application changes nothing; the first application registers
        the callbacks; the same application again changes nothing; a different one
        first unregisters the old application, then registers the new one. */
    method Init(a: Option<Application>)
      requires Valid()
      modifies this`app, this`calls
      ensures Valid()
      ensures a.None? ==> app == old(app) && calls == old(calls)
      ensures a.Some? && old(app).None? ==>
        app == a && calls == old(calls) + [RegisterCallbacks(a.value)]
      ensures a.Some? && old(app) == a ==> app == old(app) && calls == old(calls)
      ensures a.Some? && old(app).Some? && old(app) != a ==>
        app == a && calls == old(calls) + [UnregisterCallbacks(old(app).value), RegisterCallbacks(a.value)]
      ensures |Registrations(calls)| <= 1
    {
      if a.Some? {
        if app.None? {
          app := a;
          RegistrationsAppend(calls, RegisterCallbacks(a.value));
          Register(app);
          return;
        }
        if app == a {
          return;
        }
        RegistrationsAppend(calls, UnregisterCallbacks(app.value));
        Unregister(app);
        app := a;
        RegistrationsAppend(calls, RegisterCallbacks(a.value));
        Register(app);
      }
    }

    /** The `onActivityCreated` callback. */
    method OnActivityCreated(a: Activity)
      modifies this`activityStack
      ensures activityStack == old(activityStack) + [a]
    {
      activityStack := activityStack + [a];
    }

    /** The `onActivityDestroyed` callback: removes the first occurrence, if any. */
    method OnActivityDestroyed(a: Activity)
      modifies this`activityStack
      ensures activityStack == RemoveFirst(old(activityStack), a)
    {
      activityStack := RemoveFirst(activityStack, a);
    }

    /** `getApp`: `app!!`. */
    method GetApp() returns (r: Result<Application>)
      ensures app.None? ==> r == Throws(NullPointer)
      ensures app.Some? ==> r == Ok(app.value)
    {
      if app.None? {
        return Throws(NullPointer);
      }
      return Ok(app.value);
    }

    /** `getAppContext`: `app!!.applicationContext`. */
    method GetAppContext() returns (r: Result<Context>)
      ensures app.None? ==> r == Throws(NullPointer)
      ensures app.Some? ==> r == Ok(ApplicationContext(app.value))
    {
      if app.None? {
        return Throws(NullPointer);
      }
      return Ok(ApplicationContext(app.value));
    }

    /** `getTopActivity`: the most recently added activity, or null. */
    method GetTopActivity() returns (r: Option<Activity>)
      ensures activityStack == [] ==> r == None
      ensures activityStack != [] ==> r == Some(activityStack[|activityStack| - 1])
    {
      if activityStack != [] {
        return Some(activityStack[|activityStack| - 1]);
      }
      return None;
    }

    /** `getContext`: the cast of `getTopActivity()` to the non-null `Context` throws on
        an empty stack; otherwise the weak reference is read back at once, while the
        stack still holds the activity, and yields the top activity. */
    method GetContext() returns (r: Result<Activity>)
      ensures activityStack == [] ==> r == Throws(NullPointer)
      ensures activityStack != [] ==> r == Ok(activityStack[|activityStack| - 1])
    {
      var top := GetTopActivity();
      if top.None? {
        return Throws(NullPointer);
      }
      return Ok(top.value);
    }

    /** `isAppForeground`, over the process table `info` the host returns. The cast
        of `app?.getSystemService(..)` to a non-null type throws when no application
        is set; otherwise the answer is whether some process is in the foreground and
        carries the application's package name. */
    method IsAppForeground(info: Option<seq<ProcessInfo>>) returns (r: Result<bool>)
      ensures app.None? ==> r == Throws(NullPointer)
      ensures app.Some? ==> r.Ok?
      ensures app.Some? ==> (r.value <==> info.Some? && ForegroundEntry(info.value, app.value.packageName))
    {
      if app.None? {
        return Throws(NullPointer);
      }
      if info.None? || |info.value| == 0 {
        return Ok(false);
      }
      var procs := info.value;
      var i := 0;
      while i < |procs|
        invariant 0 <= i <= |procs|
        invariant forall j :: 0 <= j < i ==>
          !(procs[j].importance == ImportanceForeground && procs[j].processName == app.value.packageName)
      {
        if procs[i].importance == ImportanceForeground {
          if procs[i].processName == app.value.packageName {
            return Ok(true);
          }
        }
        i := i + 1;
      }
      return Ok(false);
    }

    /** `finishTopActivity`: `lastElement()` throws on an empty stack; otherwise the
        top activity is finished and stays on the stack. */
    method FinishTopActivity() returns (o: Outcome)
      requires Valid()
      modifies this`calls
      ensures Valid()
      ensures old(activityStack) == [] ==> o == Raised(NoSuchElement) && calls == old(calls)
      ensures old(activityStack) != [] ==>
        o == Completed && calls == old(calls) + [Finish(activityStack[|activityStack| - 1])]
    {
      if activityStack == [] {
        return Raised(NoSuchElement);
      }
      RegistrationsAppend(calls, Finish(activityStack[|activityStack| - 1]));
      calls := calls + [Finish(activityStack[|activityStack| - 1])];
      return Completed;
    }

    /** `finishActivity(activity)`: remove the first occurrence, then finish it. */
    method FinishActivity(a: Activity)
      requires Valid()
      modifies this`activityStack, this`calls
      ensures Valid()
      ensures activityStack == RemoveFirst(old(activityStack), a)
      ensures calls == old(calls) + [Finish(a)]
    {
      activityStack := RemoveFirst(activityStack, a);
      RegistrationsAppend(calls, Finish(a));
      calls := calls + [Finish(a)];
    }

    /** `finishActivity(cla)`: `forEach` walks the stack with the fail-fast iterator of
        `java.util.Vector` while the body removes from it. The first activity of class
        `cla` is finished and removed; the iterator's next `hasNext` sees the shorter
        stack, so the walk ends quietly only when that activity was second from the
        top, and otherwise the next `next()` throws. No other activity is finished. */
    method FinishActivityOfClass(cla: string) returns (o: Outcome)
      requires Valid()
      modifies this`activityStack, this`calls
      ensures Valid()
      ensures var s, k := old(activityStack), FirstOfClass(old(activityStack), cla);
        if k == -1 then
          activityStack == s && calls == old(calls) && o == Completed
        else
          && activityStack == s[..k] + s[k + 1..]
          && calls == old(calls) + [Finish(s[k])]
          && o == if k == |s| - 2 then Completed else Raised(ConcurrentModification)
    {
      var s0 := activityStack;
      ghost var c0 := calls;
      var cursor := 0;
      var modified := false;
      o := Completed;
      while cursor != |activityStack|
        invariant 0 <= cursor <= |s0|
        invariant Valid()
        invariant !modified ==> activityStack == s0 && calls == c0
        invariant !modified ==> forall i :: 0 <= i < cursor ==> s0[i].cls != cla
        invariant modified ==> 1 <= cursor && FirstOfClass(s0, cla) == cursor - 1
        invariant modified ==> activityStack == s0[..cursor - 1] + s0[cursor..]
        invariant modified ==> calls == c0 + [Finish(s0[cursor - 1])]
        decreases if modified then 0 else |s0| - cursor + 1
      {
        if modified {
          return Raised(ConcurrentModification);
        }
        var it := activityStack[cursor];
        cursor := cursor + 1;
        if it.cls == cla {
          assert it !in s0[..cursor - 1];
          RemoveFirstShape(s0, it, cursor - 1);
          FinishActivity(it);
          modified := true;
        }
      }
    }

    /** `finishAllActivity`: the loop runs over the indices of a reversed copy but
        reads the original stack at each index, so it finishes every activity once, from
        the bottom up; then the stack is cleared. */
    method FinishAllActivity()
      requires Valid()
      modifies this`activityStack, this`calls
      ensures Valid()
      ensures activityStack == []
      ensures calls == old(calls) + FinishEach(old(activityStack))
    {
      var reversed := Reversed(activityStack);
      ghost var c0 := calls;
      var i := 0;
      while i < |reversed|
        invariant activityStack == old(activityStack)
        invariant 0 <= i <= |activityStack| == |reversed|
        invariant calls == c0 + FinishEach(activityStack[..i])
      {
        assert activityStack[..i + 1][..i] == activityStack[..i];
        calls := calls + [Finish(activityStack[i])];
        i := i + 1;
      }
      assert activityStack[..i] == activityStack;
      RegistrationsFinishEach(c0, activityStack);
      activityStack := [];
    }

    /** `appExit`: finish all activities, ask the host to kill the background
        processes of the context's package, then exit the process with status 0. */
    method AppExit(contextPackageName: string)
      requires Valid()
      modifies this`activityStack, this`calls, this`terminated
      ensures Valid()
      ensures activityStack == [] && terminated
      ensures calls == old(calls) + FinishEach(old(activityStack)) +
        [KillBackgroundProcesses(contextPackageName), ExitProcess(0)]
    {
      FinishAllActivity();
      RegistrationsAppend(calls, KillBackgroundProcesses(contextPackageName));
      calls := calls + [KillBackgroundProcesses(contextPackageName)];
      RegistrationsAppend(calls, ExitProcess(0));
      calls := calls + [ExitProcess(0)];
      terminated := true;
    }
  }

  /** Destroying the middle one of three distinct activities leaves the other two in
      order. */
  lemma DestroyMiddle(a: Activity, b: Activity, c: Activity)
    requires a != b && b != c && a != c
    ensures RemoveFirst([a, b, c], b) == [a, c]
  {
    RemoveFirstShape([a, b, c], b, 1);
    assert [a, b, c][..1] + [a, b, c][2..] == [a, c];
  }

  /** The lifecycle scenario: activities A, B, C are created and B is destroyed; the
      top is C throughout, and A and C remain in creation order. */
  method LifecycleScenario(a: Activity, b: Activity, c: Activity)
    returns (top1: Option<Activity>, top2: Option<Activity>, remaining: seq<Activity>)
    requires a != b && b != c && a != c
    ensures top1 == Some(c) && top2 == Some(c)
    ensures remaining == [a, c]
  {
    var m := new AppManager();
    m.OnActivityCreated(a);
    m.OnActivityCreated(b);
    m.OnActivityCreated(c);
    assert m.activityStack == [a, b, c];
    top1 := m.GetTopActivity();
    DestroyMiddle(a, b, c);
    m.OnActivityDestroyed(b);
    top2 := m.GetTopActivity();
    remaining := m.activityStack;
  }

  /** With A below C on the stack, `finishAllActivity` finishes A before C, the
      reverse of the newest-first order, and empties the stack. */
  method FinishAllScenario(a: Activity, c: Activity)
    returns (finished: seq<Activity>, remaining: seq<Activity>)
    requires a != c
    ensures finished == [a, c] && finished != [c, a]
    ensures remaining == []
  {
    var m := new AppManager();
    m.OnActivityCreated(a);
    m.OnActivityCreated(c);
    assert m.activityStack == [a, c];
    assert m.calls == [] && m.app == None;
    m.FinishAllActivity();
    assert m.calls == FinishEach([a, c]);
    FinishEachOrder([a, c]);
    finished := Finished(m.calls);
    remaining := m.activityStack;
  }
}
