/** `useDebounce`: a debounced function keeps the handle of its latest timer in
    `timeoutRef.current`; each call clears that timer and schedules a new one carrying
    the call's arguments, and unmounting clears it. Time is abstract: a timer runs when
    a `Fire` step names it. */
module Debounce {
  import opened Wrappers

  /** A handle returned by `setTimeout`. */
  type TimerId = nat

  /** The timers this hook has scheduled and that have neither run nor been cleared (each
      holding the arguments it will call back with), the handle in `timeoutRef.current`, the
      handle `setTimeout` returns next, and the callback's invocations so far. */
  datatype Timers<A> = Timers(scheduled: map<TimerId, A>, handle: Option<TimerId>, nextId: TimerId, invoked: seq<A>)

  datatype Step<A> = Call(args: A) | Fire(id: TimerId) | Teardown

  /** `if (timeoutRef.current) clearTimeout(timeoutRef.current)`. */
  function Cleared<A>(t: Timers<A>): map<TimerId, A> {
    if t.handle.Some? then t.scheduled - {t.handle.value} else t.scheduled
  }

  /** One step. A call schedules exactly one new timer, under a fresh handle, and invokes
      nothing; a timer that fires invokes the callback at most once; teardown invokes nothing. */
  function Next<A>(t: Timers<A>, step: Step<A>): (u: Timers<A>)
    ensures step.Call? ==>
      && u.handle == Some(t.nextId) && t.nextId in u.scheduled
      && u.scheduled[t.nextId] == step.args && u.nextId > t.nextId && u.invoked == t.invoked
    ensures step.Fire? ==> u.invoked == t.invoked + (if step.id in t.scheduled then [t.scheduled[step.id]] else [])
    ensures step.Teardown? ==> u.invoked == t.invoked && u.handle == t.handle
    ensures u.scheduled.Keys <= t.scheduled.Keys + {t.nextId}
  {
    match step
    case Call(args) => Timers(Cleared(t)[t.nextId := args], Some(t.nextId), t.nextId + 1, t.invoked)
    case Fire(id) =>
      if id in t.scheduled then t.(scheduled := t.scheduled - {id}, invoked := t.invoked + [t.scheduled[id]])
      else t
    case Teardown => t.(scheduled := Cleared(t))
  }

  /** A sequence of steps, in order. The callback's invocations only grow, by at most one
      per step, and keep their past. */
  function Run<A>(t: Timers<A>, steps: seq<Step<A>>): (u: Timers<A>)
    ensures |t.invoked| <= |u.invoked| <= |t.invoked| + |steps|
    ensures u.invoked[..|t.invoked|] == t.invoked
    decreases |steps|
  {
    if steps == [] then t
    else
      var t1 := Next(t, steps[0]);
      assert t1.invoked[..|t.invoked|] == t.invoked;
      Run(t1, steps[1..])
  }

  /** The only timer that can be scheduled is the one `timeoutRef.current` names. */
  ghost predicate OnlyCurrentScheduled<A>(t: Timers<A>) {
    forall id :: id in t.scheduled ==> t.handle == Some(id)
  }

  /** The arguments waiting to be delivered, if a timer is scheduled. */
  function Pending<A>(t: Timers<A>): Option<A> {
    if t.handle.Some? && t.handle.value in t.scheduled then Some(t.scheduled[t.handle.value]) else None
  }

  lemma AtMostOnePending<A>(t: Timers<A>)
    requires OnlyCurrentScheduled(t)
    ensures |t.scheduled| <= 1
    ensures t.scheduled != map[] ==> t.scheduled == map[t.handle.value := Pending(t).value]
  {
    if t.handle.Some? {
      assert t.scheduled.Keys <= {t.handle.value};
      if t.handle.value in t.scheduled {
        assert t.scheduled == map[t.handle.value := Pending(t).value];
      } else {
        assert t.scheduled == map[];
      }
    } else {
      assert t.scheduled == map[];
    }
  }

  lemma NextKeepsOnlyCurrent<A>(t: Timers<A>, step: Step<A>)
    requires OnlyCurrentScheduled(t)
    ensures OnlyCurrentScheduled(Next(t, step))
  {
  }

  /** Every reachable state has at most one timer scheduled. */
  lemma {:induction false} RunKeepsOnlyCurrent<A>(t: Timers<A>, steps: seq<Step<A>>)
    requires OnlyCurrentScheduled(t)
    ensures OnlyCurrentScheduled(Run(t, steps))
    ensures |Run(t, steps).scheduled| <= 1
    decreases |steps|
  {
    if steps != [] {
      NextKeepsOnlyCurrent(t, steps[0]);
      RunKeepsOnlyCurrent(Next(t, steps[0]), steps[1..]);
    } else {
      AtMostOnePending(t);
    }
  }

  /** A call replaces whatever was pending by its own arguments and invokes nothing. */
  lemma CallReplacesPending<A>(t: Timers<A>, args: A)
    requires OnlyCurrentScheduled(t)
    ensures Pending(Next(t, Call(args))) == Some(args)
    ensures Next(t, Call(args)).scheduled == map[t.nextId := args]
    ensures Next(t, Call(args)).invoked == t.invoked
  {
    var u := Next(t, Call(args));
    assert Cleared(t) == map[];
  }

  /** With nothing pending, no timer can deliver anything. */
  lemma FireWithoutPendingIsInert<A>(t: Timers<A>, id: TimerId)
    requires OnlyCurrentScheduled(t) && Pending(t).None?
    ensures Next(t, Fire(id)) == t
  {
  }

  function Calls<A>(args: seq<A>): (steps: seq<Step<A>>)
    ensures |steps| == |args|
    ensures forall i :: 0 <= i < |args| ==> steps[i] == Call(args[i])
  {
    seq(|args|, i requires 0 <= i < |args| => Call(args[i]))
  }

  /** After a burst of calls only the last one's arguments are pending, and nothing was invoked. */
  lemma {:induction false} BurstLeavesLast<A>(t: Timers<A>, args: seq<A>)
    requires OnlyCurrentScheduled(t) && args != []
    ensures var u := Run(t, Calls(args));
      && OnlyCurrentScheduled(u)
      && u.handle.Some?
      && Pending(u) == Some(args[|args| - 1])
      && u.scheduled == map[u.handle.value := args[|args| - 1]]
      && u.invoked == t.invoked
    decreases |args|
  {
    var t1 := Next(t, Call(args[0]));
    CallReplacesPending(t, args[0]);
    assert Calls(args)[1..] == Calls(args[1..]);
    if |args| > 1 {
      BurstLeavesLast(t1, args[1..]);
    } else {
      assert Calls(args[1..]) == [];
    }
  }

  /** A burst of calls followed by its timer firing invokes the callback once, with the
      last call's arguments, and leaves nothing pending. */
  lemma BurstThenFire<A>(t: Timers<A>, args: seq<A>)
    requires OnlyCurrentScheduled(t) && args != []
    ensures var u := Run(t, Calls(args));
      u.handle.Some? &&
      var v := Next(u, Fire(u.handle.value));
      && v.invoked == t.invoked + [args[|args| - 1]]
      && Pending(v).None? && v.scheduled == map[]
  {
    BurstLeavesLast(t, args);
  }

  /** Steps that are not calls never schedule anything. */
  predicate NoCalls<A>(steps: seq<Step<A>>) {
    forall i :: 0 <= i < |steps| ==> !steps[i].Call?
  }

  /** After teardown, and as long as the debounced function is not called again, the
      callback is never invoked. */
  lemma {:induction false} NothingFiresAfterTeardown<A>(t: Timers<A>, steps: seq<Step<A>>)
    requires OnlyCurrentScheduled(t) && NoCalls(steps)
    ensures Run(Next(t, Teardown), steps).invoked == t.invoked
    ensures Run(Next(t, Teardown), steps).scheduled == map[]
    decreases |steps|
  {
    var u := Next(t, Teardown);
    assert u.scheduled == map[];
    TornDownStaysQuiet(u, steps);
  }

  lemma {:induction false} TornDownStaysQuiet<A>(u: Timers<A>, steps: seq<Step<A>>)
    requires u.scheduled == map[] && NoCalls(steps)
    ensures Run(u, steps) == u
    decreases |steps|
  {
    if steps != [] {
      assert Next(u, steps[0]) == u;
      TornDownStaysQuiet(u, steps[1..]);
    }
  }

  /** The debounced function of one hook instance. */
  class Debouncer<A> {
    var timeoutRef: Option<TimerId>
    var scheduled: map<TimerId, A>
    var nextId: TimerId
    var invoked: seq<A>

    function State(): Timers<A>
      reads this
    {
      Timers(scheduled, timeoutRef, nextId, invoked)
    }

    ghost predicate Valid()
      reads this
    {
      OnlyCurrentScheduled(State())
    }

    /** `useRef(null)`: no handle, no timers. */
    constructor ()
      ensures Valid() && State() == Timers(map[], None, 1, [])
    {
      timeoutRef := None;
      scheduled := map[];
      nextId := 1;
      invoked := [];
    }

    /** `debouncedFn(...args)`: clear the current timer, schedule a new one with `args`. */
    method DebouncedFn(args: A)
      requires Valid()
      modifies this
      ensures Valid() && State() == Next(old(State()), Call(args))
      ensures Pending(State()) == Some(args) && invoked == old(invoked)
    {
      if timeoutRef.Some? {
        scheduled := scheduled - {timeoutRef.value};
      }
      scheduled := scheduled[nextId := args];
      timeoutRef := Some(nextId);
      nextId := nextId + 1;
    }

    /** Timer `id` elapses: if it is still scheduled, the callback runs with its arguments,
        which are returned. */
    method OnTimeout(id: TimerId) returns (delivered: Option<A>)
      requires Valid()
      modifies this
      ensures Valid() && State() == Next(old(State()), Fire(id))
      ensures delivered == (if id in old(scheduled) then Some(old(scheduled)[id]) else None)
      ensures delivered.Some? ==> delivered == old(Pending(State()))
    {
      delivered := None;
      if id in scheduled {
        delivered := Some(scheduled[id]);
        invoked := invoked + [scheduled[id]];
        scheduled := scheduled - {id};
      }
    }

    /** `clearTimeout(timeoutRef.current)`: what the effect's cleanup does on unmount. */
    method ClearPending()
      requires Valid()
      modifies this
      ensures Valid() && State() == Next(old(State()), Teardown)
      ensures scheduled == map[] && invoked == old(invoked)
    {
      if timeoutRef.Some? {
        scheduled := scheduled - {timeoutRef.value};
      }
    }
  }
}
