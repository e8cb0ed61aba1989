/** Client code in the shape of the repository's store tests, stated through
    the contracts of the model: what the state is after a run of updates,
    and which listeners each notification pass reaches while listeners come
    and go between passes. */
module Scenarios {
  import opened Js
  import opened Listeners
  import Store
  import Legacy

  /** The listeners of a trace of calls, in order. */
  ghost function Heard(ns: seq<Store.Notification>): (ls: seq<Listener>)
    ensures |ls| == |ns|
    ensures forall j :: 0 <= j < |ns| ==> ls[j] == ns[j].listener
  {
    seq(|ns|, j requires 0 <= j < |ns| => ns[j].listener)
  }

  /** A pass nobody reacts to reaches exactly the registry and leaves it. */
  lemma QuietPassFromStart(s: seq<Listener>)
    ensures Pass(Start(s), 0, []) == (s, Start(s))
  {
    QuietPass(Start(s), 0, []);
    assert s[0..] == s;
  }

  /** The calls to `called` name exactly `called`. */
  lemma HeardNotifications(called: seq<Listener>, state: State, action: Option<Store.Action>, update: Option<State>)
    ensures Heard(Store.Notifications(called, state, action, update)) == called
  {
  }

  /** `store.setState(update)` when no listener touches the registry: the
      update is merged, and the pass calls exactly the listeners registered,
      which it returns. */
  method QuietSetState(store: Store.Store, update: State) returns (ghost heard: seq<Listener>)
    modifies store, store.listeners
    ensures store.state == old(store.state) + update
    ensures heard == old(store.listeners.items)
    ensures |old(store.notified)| <= |store.notified|
    ensures Heard(store.notified[|old(store.notified)|..]) == heard
    ensures store.listeners.items == old(store.listeners.items)
    ensures store.listeners == old(store.listeners) || fresh(store.listeners)
  {
    heard := store.listeners.items;
    QuietPassFromStart(heard);
    Store.NextStateMerges(store.state, update);
    ghost var mark := |store.notified|;
    store.SetState(Some(update), false, None, []);
    HeardNotifications(heard, store.state, None, Some(update));
    assert store.notified[mark..] == Store.Notifications(heard, store.state, None, Some(update));
  }

  /** `store.setState(update)`, as far as the state is concerned. */
  method Merge(store: Store.Store, update: State)
    modifies store, store.listeners
    ensures store.state == old(store.state) + update
    ensures store.listeners == old(store.listeners) || fresh(store.listeners)
  {
    Store.NextStateMerges(store.state, update);
    store.SetState(Some(update), false, None, []);
  }

  /** The states of that run, one merge after the other. */
  lemma MergeRun(a: string, c: string)
    requires a != c
    ensures map[] + map[a := Str("b")] + map[c := Str("d")] + map[a := Str("x")] + map[c := Null] + map[c := Undefined]
      == map[a := Str("x"), c := Undefined]
  {
  }

  /** Updates merge one after the other; a key set to `null` and then to
      `undefined` stays a key (test/unistore.test.js:14-27, with keys `a`
      and `c`). */
  method UpdateInPlace(a: string, c: string) returns (s: State)
    requires a != c
    ensures s == map[a := Str("x"), c := Undefined]
  {
    var store := new Store.Store(None);
    Merge(store, map[a := Str("b")]);
    Merge(store, map[c := Str("d")]);
    Merge(store, map[a := Str("x")]);
    Merge(store, map[c := Null]);
    Merge(store, map[c := Undefined]);
    MergeRun(a, c);
    s := store.GetState();
  }

  /** Three listeners; `sub2` and then `sub1` are unsubscribed, and `sub3`
      through the closure `subscribe` returned. Each pass reaches exactly
      the listeners still registered, in order (test/unistore.test.js:50-96). */
  method Unsubscription(sub1: Listener, sub2: Listener, sub3: Listener)
    returns (registry: seq<Listener>, ghost passes: seq<seq<Listener>>)
    requires sub1 != sub2 && sub2 != sub3 && sub1 != sub3
    ensures registry == []
    ensures passes == [[sub1, sub2, sub3], [sub1, sub3], [sub3], []]
  {
    var store := new Store.Store(None);
    var _ := store.Subscribe(sub1);
    var _ := store.Subscribe(sub2);
    var unsub3 := store.Subscribe(sub3);
    ghost var h1 := QuietSetState(store, map["a" := Str("b")]);
    assert h1 == [sub1, sub2, sub3];

    store.Unsubscribe(sub2);
    assert [sub1, sub2, sub3][1..] == [sub2, sub3] && [sub2, sub3][1..] == [sub3];
    assert RemoveFirst([sub1, sub2, sub3], sub2) == [sub1, sub3];
    ghost var h2 := QuietSetState(store, map["c" := Str("d")]);
    assert h2 == [sub1, sub3];

    store.Unsubscribe(sub1);
    assert [sub1, sub3][1..] == [sub3];
    assert RemoveFirst([sub1, sub3], sub1) == [sub3];
    ghost var h3 := QuietSetState(store, map["e" := Str("f")]);
    assert h3 == [sub3];

    store.CallUnsubscriber(unsub3);
    assert RemoveFirst([sub3], sub3) == [];
    ghost var h4 := QuietSetState(store, map["g" := Str("h")]);
    assert h4 == [];

    passes := [h1, h2, h3, h4];
    registry := store.listeners.items;
  }

  /** `setState(update)` on the older store when no listener touches the
      array: every listener registered is called once, in order. */
  method LegacyQuietSetState(store: Legacy.LegacyStore, update: State) returns (ghost heard: seq<Listener>)
    modifies store
    ensures store.state == old(store.state) + update
    ensures heard == old(store.listeners)
    ensures |old(store.notified)| <= |store.notified|
    ensures store.notified[|old(store.notified)|..] == Legacy.Calls(heard, store.state)
    ensures store.listeners == old(store.listeners)
  {
    heard := store.listeners;
    Legacy.ForEachQuiet(heard, 0);
    assert heard[0..] == heard;
    ghost var mark := |store.notified|;
    store.SetState(update, []);
    assert store.notified[mark..] == Legacy.Calls(heard, store.state);
  }

  /** The same run on the older store: splicing out `sub2` and then `sub1`
      leaves the array empty (unistore.test.js:52-82). */
  method LegacyUnsubscription(sub1: Listener, sub2: Listener)
    returns (registry: seq<Listener>, ghost passes: seq<seq<Listener>>)
    requires sub1 != sub2
    ensures registry == []
    ensures passes == [[sub1, sub2], [sub1], []]
  {
    var store := new Legacy.LegacyStore(None);
    store.Subscribe(sub1);
    store.Subscribe(sub2);
    ghost var h1 := LegacyQuietSetState(store, map["a" := Str("b")]);
    assert h1 == [sub1, sub2];

    store.Unsubscribe(sub2);
    Legacy.RemovalIsRemoveFirst([sub1, sub2], sub2);
    assert [sub1, sub2][1..] == [sub2] && [sub2][1..] == [];
    assert RemoveFirst([sub1, sub2], sub2) == [sub1];
    ghost var h2 := LegacyQuietSetState(store, map["c" := Str("d")]);
    assert h2 == [sub1];

    store.Unsubscribe(sub1);
    Legacy.RemovalIsRemoveFirst([sub1], sub1);
    assert RemoveFirst([sub1], sub1) == [];
    ghost var h3 := LegacyQuietSetState(store, map["e" := Str("f")]);
    assert h3 == [];

    passes := [h1, h2, h3];
    registry := store.listeners;
  }
}
