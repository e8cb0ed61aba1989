/** The stand-alone emitter of `src/subscriber.js`: the same registry rules
    as the store's, with `emit` passing its arguments to every listener. */
module Subscriber {
  import opened Js
  import opened Listeners

  /** The closure `() => { unsubscribe(listener); }` that `subscribe` returns. */
  datatype Unsubscriber = Unsubscriber(listener: Listener)

  /** One listener call `listener.apply(null, args)`. */
  datatype Emission = Emission(listener: Listener, args: seq<Value>)

  /** The calls an `emit` makes to `called`, in order. */
  function Emissions(called: seq<Listener>, args: seq<Value>): seq<Emission> {
    seq(|called|, j requires 0 <= j < |called| => Emission(called[j], args))
  }

  lemma EmissionsSnoc(called: seq<Listener>, l: Listener, args: seq<Value>)
    ensures Emissions(called + [l], args) == Emissions(called, args) + [Emission(l, args)]
  {
  }

  class Subscriber {
    var listeners: ListenerArray
    /** Every listener call made so far, in order. */
    ghost var emitted: seq<Emission>

    /** `createSubscriber()`. */
    constructor ()
      ensures fresh(listeners) && listeners.items == []
      ensures emitted == []
    {
      listeners := new ListenerArray([]);
      emitted := [];
    }

    /** The pass state seen from the emitter while a pass walks `current`. */
    ghost function PassNow(current: ListenerArray): PassState
      reads this, listeners, current
    {
      PassState(current.items, listeners.items, listeners == current)
    }

    /** `subscribe(listener)`: push onto the registry's array, in place. */
    method Subscribe(listener: Listener) returns (unsubscribe: Unsubscriber)
      modifies listeners
      ensures listeners.items == old(listeners.items) + [listener]
      ensures unsubscribe == Unsubscriber(listener)
    {
      listeners.items := listeners.items + [listener];
      unsubscribe := Unsubscriber(listener);
    }

    /** `unsubscribe(listener)`: install a new array holding the registry
      without its first entry identical to `listener`. */
    method Unsubscribe(listener: Listener)
      modifies this
      ensures fresh(listeners)
      ensures listeners.items == RemoveFirst(old(listeners.items), listener)
      ensures emitted == old(emitted)
    {
      var out := Without(listeners.items, listener);
      listeners := new ListenerArray(out);
    }

    /** Calling the closure `subscribe` returned. */
    method CallUnsubscriber(unsubscribe: Unsubscriber)
      modifies this
      ensures fresh(listeners)
      ensures listeners.items == RemoveFirst(old(listeners.items), unsubscribe.listener)
      ensures emitted == old(emitted)
    {
      Unsubscribe(unsubscribe.listener);
    }

    /** One registry operation performed by a listener while `emit` walks
      `current`. */
    method Perform(op: Op, ghost current: ListenerArray)
      modifies this, listeners
      ensures PassNow(current) == Step(old(PassNow(current)), op)
      ensures listeners == old(listeners) || fresh(listeners)
      ensures emitted == old(emitted)
    {
      match op
      case Subscribe(l) =>
        var _ := Subscribe(l);
      case Unsubscribe(l) =>
        Unsubscribe(l);
    }

    /** The registry operations of one listener call, in order. */
    method PerformAll(ops: seq<Op>, ghost current: ListenerArray)
      modifies this, listeners
      ensures PassNow(current) == Steps(old(PassNow(current)), ops)
      ensures listeners == old(listeners) || fresh(listeners)
      ensures emitted == old(emitted)
    {
      var j := 0;
      while j < |ops|
        invariant 0 <= j <= |ops|
        invariant listeners == old(listeners) || fresh(listeners)
        invariant PassNow(current) == Steps(old(PassNow(current)), ops[..j])
        invariant emitted == old(emitted)
      {
        Perform(ops[j], current);
        assert ops[..j + 1][..j] == ops[..j];
        j := j + 1;
      }
      assert ops[..j] == ops;
    }

    /** `emit(...args)`: call the listeners of the array the registry holds
      when `emit` starts, with the same arguments, re-reading its length
      before each call. `script[i]` is what the listener called at position
      `i` does to the registry. */
    method Emit(args: seq<Value>, script: seq<seq<Op>>)
      modifies this, listeners
      ensures var pass := Pass(Start(old(listeners.items)), 0, script);
        emitted == old(emitted) + Emissions(pass.0, args) &&
        listeners.items == pass.1.registry
    {
      var current := listeners;
      ghost var total := Pass(Start(current.items), 0, script);
      ghost var called: seq<Listener> := [];
      var i := 0;
      while i < |current.items|
        invariant current == old(listeners)
        invariant listeners == current || fresh(listeners)
        invariant Progress(PassNow(current), i, called, total, script)
        invariant emitted == old(emitted) + Emissions(called, args)
        decreases ScriptLeft(i, script), |current.items| - i
      {
        ghost var now := PassNow(current);
        ProgressStep(now, i, called, total, script);
        var listener := current.items[i];
        Call(listener, args, OpsAt(script, i), current);
        EmissionsSnoc(called, listener, args);
        called := called + [listener];
        i := i + 1;
      }
      ProgressDone(PassNow(current), i, called, total, script);
    }

    /** One listener call of `emit` over `current`, and what that listener
      does to the registry. */
    method Call(listener: Listener, args: seq<Value>, ops: seq<Op>, ghost current: ListenerArray)
      modifies this, listeners
      ensures PassNow(current) == Steps(old(PassNow(current)), ops)
      ensures listeners == old(listeners) || fresh(listeners)
      ensures emitted == old(emitted) + [Emission(listener, args)]
    {
      emitted := emitted + [Emission(listener, args)];
      PerformAll(ops, current);
    }
  }
}
