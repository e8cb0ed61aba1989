/** The store of `src/index.js`: one state cell, a listener registry, a
    mutator that merges or replaces the state and then notifies, and
    `dispatch`, which runs an action and commits what it returns. */
module Store {
  import opened Js
  import opened Listeners
  import Util

  /** What `dispatch` is given: a function, or an object whose `action`
      property holds the function (its `name` is only shown to listeners).
      Functions are known by an identity number. */
  datatype Action = Plain(fn: nat) | Described(name: string, action: nat)

  /** `action.action || action`: the function `dispatch` calls. */
  function Callee(a: Action): nat {
    match a
    case Plain(f) => f
    case Described(_, f) => f
  }

  /** What an action function returns: `null` or `undefined`, a value to
      merge now, or a thenable whose value is merged when it resolves. */
  datatype ActionResult = NoUpdate | Immediate(update: State) | Deferred

  /** The thenable `ret.then(apply)` that `dispatch` returns for a deferred
      result; it remembers the action that `apply` passes on. */
  datatype Pending = Pending(action: Action)

  /** The closure `() => { unsubscribe(listener); }` that `subscribe` returns. */
  datatype Unsubscriber = Unsubscriber(listener: Listener)

  /** One listener call `listener(state, action, update)`. */
  datatype Notification = Notification(listener: Listener, state: State, action: Option<Action>, update: Option<State>)

  /** The calls a notification pass makes to `called`, in order. */
  function Notifications(called: seq<Listener>, state: State, action: Option<Action>, update: Option<State>): seq<Notification> {
    seq(|called|, j requires 0 <= j < |called| => Notification(called[j], state, action, update))
  }

  lemma NotificationsSnoc(called: seq<Listener>, l: Listener, state: State, action: Option<Action>, update: Option<State>)
    ensures Notifications(called + [l], state, action, update) ==
      Notifications(called, state, action, update) + [Notification(l, state, action, update)]
  {
  }

  /** The properties an update copies: none when it is `null` or
      `undefined`, since `for (i in null)` runs no iteration. */
  function Payload(update: Option<State>): State {
    match update
    case None => map[]
    case Some(u) => u
  }

  /** The state after `setState(update, overwrite)`: `update` itself when
      overwriting, otherwise a fresh copy of the old state with `update`'s
      properties copied over it. */
  function NextState(old_: State, update: Option<State>, overwrite: bool): (s: State)
    requires overwrite ==> update.Some?
    ensures overwrite ==> s == update.value
    ensures !overwrite ==> s.Keys == old_.Keys + Payload(update).Keys
    ensures !overwrite ==> forall k :: k in Payload(update) ==> s[k] == Payload(update)[k]
    ensures !overwrite ==> forall k :: k in old_ && k !in Payload(update) ==> s[k] == old_[k]
  {
    if overwrite then update.value else Util.Merged(Util.Merged(map[], old_), Payload(update))
  }

  /** Merging into a fresh copy of the state gives the same properties as
      merging into the state itself. */
  lemma NextStateMerges(old_: State, update: State)
    ensures NextState(old_, Some(update), false) == Util.Merged(old_, update)
  {
    Util.MergedEmpty(old_);
    assert Util.Merged(map[], old_) == old_;
  }

  class Store {
    var state: State
    var listeners: ListenerArray
    /** Every listener call made so far, in order. */
    ghost var notified: seq<Notification>

    /** `createStore(state)`: a falsy argument (`None`) starts from `{}`. */
    constructor (initial: Option<State>)
      ensures state == Payload(initial)
      ensures fresh(listeners) && listeners.items == []
      ensures notified == []
    {
      state := match initial case None => map[] case Some(s) => s;
      listeners := new ListenerArray([]);
      notified := [];
    }

    /** `getState()`: the state last committed. */
    function GetState(): (s: State)
      reads this
      ensures s == state
    {
      state
    }

    /** The pass state seen from the store while a pass walks `current`. */
    ghost function PassNow(current: ListenerArray): PassState
      reads this, listeners, current
    {
      PassState(current.items, listeners.items, listeners == current)
    }

    /** `subscribe(listener)`: push onto the registry's array, in place. */
    method Subscribe(listener: Listener) returns (unsubscribe: Unsubscriber)
      modifies listeners
      ensures listeners.items == old(listeners.items) + [listener]
      ensures unsubscribe == Unsubscriber(listener)
    {
      listeners.items := listeners.items + [listener];
      unsubscribe := Unsubscriber(listener);
    }

    /** `unsubscribe(listener)`: install a new array holding the registry
      without its first entry identical to `listener`. */
    method Unsubscribe(listener: Listener)
      modifies this
      ensures fresh(listeners)
      ensures listeners.items == RemoveFirst(old(listeners.items), listener)
      ensures state == old(state) && notified == old(notified)
    {
      var out := Without(listeners.items, listener);
      listeners := new ListenerArray(out);
    }

    /** Calling the closure `subscribe` returned. */
    method CallUnsubscriber(unsubscribe: Unsubscriber)
      modifies this
      ensures fresh(listeners)
      ensures listeners.items == RemoveFirst(old(listeners.items), unsubscribe.listener)
      ensures state == old(state) && notified == old(notified)
    {
      Unsubscribe(unsubscribe.listener);
    }

    /** One registry operation performed by a listener while a pass walks
      `current`. */
    method Perform(op: Op, ghost current: ListenerArray)
      modifies this, listeners
      ensures PassNow(current) == Step(old(PassNow(current)), op)
      ensures listeners == old(listeners) || fresh(listeners)
      ensures state == old(state) && notified == old(notified)
    {
      match op
      case Subscribe(l) =>
        var _ := Subscribe(l);
      case Unsubscribe(l) =>
        Unsubscribe(l);
    }

    /** The registry operations of one listener call, in order. */
    method PerformAll(ops: seq<Op>, ghost current: ListenerArray)
      modifies this, listeners
      ensures PassNow(current) == Steps(old(PassNow(current)), ops)
      ensures listeners == old(listeners) || fresh(listeners)
      ensures state == old(state) && notified == old(notified)
    {
      var j := 0;
      while j < |ops|
        invariant 0 <= j <= |ops|
        invariant listeners == old(listeners) || fresh(listeners)
        invariant PassNow(current) == Steps(old(PassNow(current)), ops[..j])
        invariant state == old(state) && notified == old(notified)
      {
        Perform(ops[j], current);
        assert ops[..j + 1][..j] == ops[..j];
        j := j + 1;
      }
      assert ops[..j] == ops;
    }

    /** The notification loop of `setState`: call the listeners of the array
      the registry holds when the loop starts, re-reading its length before
      each call. `script[i]` is what the listener called at position `i`
      does to the registry. */
    method Notify(action: Option<Action>, update: Option<State>, script: seq<seq<Op>>)
      modifies this, listeners
      ensures state == old(state)
      ensures listeners == old(listeners) || fresh(listeners)
      ensures var pass := Pass(Start(old(listeners.items)), 0, script);
        notified == old(notified) + Notifications(pass.0, state, action, update) &&
        listeners.items == pass.1.registry
    {
      var current := listeners;
      ghost var total := Pass(Start(current.items), 0, script);
      ghost var called: seq<Listener> := [];
      var i := 0;
      while i < |current.items|
        invariant current == old(listeners)
        invariant listeners == current || fresh(listeners)
        invariant state == old(state)
        invariant Progress(PassNow(current), i, called, total, script)
        invariant notified == old(notified) + Notifications(called, state, action, update)
        decreases ScriptLeft(i, script), |current.items| - i
      {
        ghost var now := PassNow(current);
        ProgressStep(now, i, called, total, script);
        var listener := current.items[i];
        Deliver(listener, action, update, OpsAt(script, i), current);
        NotificationsSnoc(called, listener, state, action, update);
        called := called + [listener];
        i := i + 1;
      }
      ProgressDone(PassNow(current), i, called, total, script);
    }

    /** One listener call of a pass over `current`, and what that listener
      does to the registry. */
    method Deliver(listener: Listener, action: Option<Action>, update: Option<State>, ops: seq<Op>,
                   ghost current: ListenerArray)
      modifies this, listeners
      ensures PassNow(current) == Steps(old(PassNow(current)), ops)
      ensures listeners == old(listeners) || fresh(listeners)
      ensures state == old(state)
      ensures notified == old(notified) + [Notification(listener, state, action, update)]
    {
      notified := notified + [Notification(listener, state, action, update)];
      PerformAll(ops, current);
    }

    /** `setState(update, overwrite, action)`: commit the new state, then
      notify. */
    method SetState(update: Option<State>, overwrite: bool, action: Option<Action>, script: seq<seq<Op>>)
      requires overwrite ==> update.Some?
      modifies this, listeners
      ensures state == NextState(old(state), update, overwrite)
      ensures listeners == old(listeners) || fresh(listeners)
      ensures var pass := Pass(Start(old(listeners.items)), 0, script);
        notified == old(notified) + Notifications(pass.0, state, action, update) &&
        listeners.items == pass.1.registry
    {
      if overwrite {
        state := update.value;
      } else {
        var copy := new Obj(map[]);
        copy := Util.Assign(copy, state);
        copy := Util.Assign(copy, Payload(update));
        state := copy.props;
      }
      Notify(action, update, script);
    }

    /** `dispatch(action)`: call the action's function with access to the
      current state (`run` gives what it returns) and commit the result:
      nothing for `null`/`undefined`, a merge before returning for a plain
      value, and for a thenable a `Pending` that commits when it settles. */
    method Dispatch(action: Action, run: (nat, State) -> ActionResult, script: seq<seq<Op>>)
      returns (ret: Option<Pending>)
      modifies this, listeners
      ensures ret == if run(Callee(action), old(state)).Deferred? then Some(Pending(action)) else None
      ensures listeners == old(listeners) || fresh(listeners)
      ensures !run(Callee(action), old(state)).Immediate? ==>
        state == old(state) && notified == old(notified) &&
        listeners == old(listeners) && listeners.items == old(listeners.items)
      ensures run(Callee(action), old(state)).Immediate? ==>
        var update := run(Callee(action), old(state)).update;
        var pass := Pass(Start(old(listeners.items)), 0, script);
        state == Util.Merged(old(state), update) &&
        notified == old(notified) + Notifications(pass.0, state, Some(action), Some(update)) &&
        listeners.items == pass.1.registry
    {
      var result := run(Callee(action), state);
      match result
      case NoUpdate =>
        ret := None;
      case Deferred =>
        ret := Some(Pending(action));
      case Immediate(update) =>
        SetState(Some(update), false, Some(action), script);
        ret := None;
    }

    /** The deferred part of `dispatch`: when the thenable resolves to
      `value`, `apply` merges it as `setState(value, false, action)`. A
      value of `null` or `undefined` still commits a copy and notifies. */
    method Settle(pending: Pending, value: Option<State>, script: seq<seq<Op>>)
      modifies this, listeners
      ensures state == Util.Merged(old(state), Payload(value))
      ensures listeners == old(listeners) || fresh(listeners)
      ensures var pass := Pass(Start(old(listeners.items)), 0, script);
        notified == old(notified) + Notifications(pass.0, state, Some(pending.action), value) &&
        listeners.items == pass.1.registry
    {
      SetState(value, false, Some(pending.action), script);
    }
  }
}
