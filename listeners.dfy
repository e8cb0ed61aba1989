/** The listener registry shared, line for line, by the store of
    `src/index.js` and the emitter of `src/subscriber.js`: an array of
    listener handles that `subscribe` pushes onto in place and that
    `unsubscribe` replaces by a rebuilt copy, and the notification pass that
    walks the array captured when it starts. */
module Listeners {
  import opened Js

  /** A listener function, known only by its identity (`===`). */
  datatype Listener = Listener(id: nat)

  /** What a listener does to the registry while it is being notified. */
  datatype Op = Subscribe(listener: Listener) | Unsubscribe(listener: Listener)

  /** A JavaScript array of listeners: a reference whose contents `push`
      changes in place, so two variables can name the same array. */
  class ListenerArray {
    var items: seq<Listener>

    constructor (items: seq<Listener>)
      ensures this.items == items
    {
      this.items := items;
    }
  }

  /** The registry without its first entry identical to `l`; every other
      entry is kept, in order. */
  function RemoveFirst(s: seq<Listener>, l: Listener): seq<Listener>
    decreases |s|
  {
    if s == [] then []
    else if s[0] == l then s[1..]
    else [s[0]] + RemoveFirst(s[1..], l)
  }

  /** `s.indexOf(l)`: the first position of `l`, or -1 when it is absent. */
  function FirstIndex(s: seq<Listener>, l: Listener): (i: int)
    ensures -1 <= i < |s|
    ensures i == -1 <==> l !in s
    ensures 0 <= i ==> s[i] == l && l !in s[..i]
    decreases |s|
  {
    if s == [] then -1
    else if s[0] == l then 0
    else
      var k := FirstIndex(s[1..], l);
      assert s[1..][..if k < 0 then 0 else k] == s[1..1 + (if k < 0 then 0 else k)];
      if k < 0 then -1 else k + 1
  }

  /** Removing a listener that is not registered changes nothing. */
  lemma {:induction false} RemoveFirstAbsent(s: seq<Listener>, l: Listener)
    requires l !in s
    ensures RemoveFirst(s, l) == s
    decreases |s|
  {
    if s != [] {
      assert s[0] != l;
      assert s == [s[0]] + s[1..];
      RemoveFirstAbsent(s[1..], l);
    }
  }

  /** When `l` first occurs at position `i`, removal takes away exactly that
      entry, the entries before and after it keeping their order. */
  lemma {:induction false} RemoveFirstAt(s: seq<Listener>, l: Listener, i: nat)
    requires i < |s| && s[i] == l && l !in s[..i]
    ensures RemoveFirst(s, l) == s[..i] + s[i + 1..]
    decreases i
  {
    if i > 0 {
      var t := s[1..];
      assert s[0] in s[..i];
      assert t[..i - 1] == s[1..i];
      assert l !in t[..i - 1];
      RemoveFirstAt(t, l, i - 1);
      assert s[..i] == [s[0]] + t[..i - 1];
      assert s[i + 1..] == t[i..];
    }
  }

  /** Removal by identity, stated through `indexOf`. */
  lemma RemoveFirstIndexOf(s: seq<Listener>, l: Listener)
    ensures var i := FirstIndex(s, l);
      RemoveFirst(s, l) == if i < 0 then s else s[..i] + s[i + 1..]
  {
    var i := FirstIndex(s, l);
    if i < 0 {
      RemoveFirstAbsent(s, l);
    } else {
      RemoveFirstAt(s, l, i);
    }
  }

  /** Removal takes away one copy of `l` when there is one, and nothing else. */
  lemma {:induction false} RemoveFirstMultiset(s: seq<Listener>, l: Listener)
    ensures multiset(RemoveFirst(s, l)) == multiset(s) - multiset{l}
    ensures |RemoveFirst(s, l)| == if l in s then |s| - 1 else |s|
    decreases |s|
  {
    if s != [] {
      assert s == [s[0]] + s[1..];
      if s[0] != l {
        RemoveFirstMultiset(s[1..], l);
      }
    }
  }

  /** Removing a listener registered at most once a second time changes
      nothing more. */
  lemma {:induction false} RemoveFirstTwice(s: seq<Listener>, l: Listener)
    requires multiset(s)[l] <= 1
    ensures RemoveFirst(RemoveFirst(s, l), l) == RemoveFirst(s, l)
    ensures l !in RemoveFirst(s, l)
  {
    RemoveFirstMultiset(s, l);
    var r := RemoveFirst(s, l);
    assert multiset(r)[l] == 0;
    assert l !in r;
    RemoveFirstAbsent(r, l);
  }

  /** Removing the last entry added, when it is the only copy, undoes the
      addition. */
  lemma {:induction false} RemoveFirstAppended(s: seq<Listener>, l: Listener)
    requires l !in s
    ensures RemoveFirst(s + [l], l) == s
    decreases |s|
  {
    if s != [] {
      assert (s + [l])[1..] == s[1..] + [l];
      RemoveFirstAppended(s[1..], l);
      assert s == [s[0]] + s[1..];
    }
  }

  /** How `RemoveFirst` extends by one entry; used by the loop in `Without`. */
  lemma {:induction false} RemoveFirstSnoc(s: seq<Listener>, x: Listener, l: Listener)
    ensures RemoveFirst(s + [x], l) ==
      if l in s then RemoveFirst(s, l) + [x]
      else if x == l then s
      else s + [x]
    decreases |s|
  {
    if s == [] {
      assert [] + [x] == [x];
    } else {
      assert (s + [x])[1..] == s[1..] + [x];
      RemoveFirstSnoc(s[1..], x, l);
      if s[0] != l {
        assert s == [s[0]] + s[1..];
      }
    }
  }

  /** The loop of `unsubscribe`: copy the registry into a new array, skipping
      the first entry identical to `listener` (after which `listener` is set
      to `null`, so that no later entry matches). */
  method Without(items: seq<Listener>, listener: Listener) returns (out: seq<Listener>)
    ensures out == RemoveFirst(items, listener)
  {
    out := [];
    var target: Option<Listener> := Some(listener);
    var i := 0;
    while i < |items|
      invariant 0 <= i <= |items|
      invariant target == (if listener in items[..i] then None else Some(listener))
      invariant out == RemoveFirst(items[..i], listener)
    {
      assert items[..i + 1] == items[..i] + [items[i]];
      RemoveFirstSnoc(items[..i], items[i], listener);
      if listener !in items[..i] {
        RemoveFirstAbsent(items[..i], listener);
      }
      if target == Some(items[i]) {
        target := None;
      } else {
        out := out + [items[i]];
      }
      i := i + 1;
    }
    assert items[..i] == items;
  }

  /** What the registry looks like in the middle of a notification pass:
      the contents of the array the pass is walking, the contents of the
      registry, and whether the two are still the same array. */
  datatype PassState = PassState(inFlight: seq<Listener>, registry: seq<Listener>, shared: bool)

  /** The pass state at the start of a pass over the registry `s`: the pass
      walks the registry's own array. */
  function Start(s: seq<Listener>): PassState {
    PassState(s, s, true)
  }

  /** One registry operation performed by a listener. `subscribe` pushes onto
      the registry's array, which is the one being walked while the two are
      shared; `unsubscribe` always installs a new array, so from then on the
      pass walks an array nothing changes. */
  function Step(p: PassState, op: Op): (q: PassState)
    ensures p.inFlight <= q.inFlight
    ensures q.shared ==> p.shared
  {
    match op
    case Subscribe(l) =>
      PassState(if p.shared then p.inFlight + [l] else p.inFlight, p.registry + [l], p.shared)
    case Unsubscribe(l) =>
      PassState(p.inFlight, RemoveFirst(p.registry, l), false)
  }

  /** The operations of one listener call, in order. */
  function Steps(p: PassState, ops: seq<Op>): (q: PassState)
    ensures p.inFlight <= q.inFlight
    ensures q.shared ==> p.shared
    decreases |ops|
  {
    if ops == [] then p else Step(Steps(p, ops[..|ops| - 1]), ops[|ops| - 1])
  }

  /** The operations the listener called at position `i` of a pass performs. */
  function OpsAt(script: seq<seq<Op>>, i: nat): seq<Op> {
    if i < |script| then script[i] else []
  }

  /** A notification pass from position `i` on: the listeners called, in
      order, and the registry state when the walk ends. The walk re-reads the
      array's length before every call, as `for (i=0; i<a.length; i++)` does. */
  function Pass(p: PassState, i: nat, script: seq<seq<Op>>): (seq<Listener>, PassState)
    requires i <= |p.inFlight|
    decreases if i < |script| then |script| - i else 0, |p.inFlight| - i
  {
    if i == |p.inFlight| then ([], p)
    else
      var q := Steps(p, OpsAt(script, i));
      var rest := Pass(q, i + 1, script);
      ([p.inFlight[i]] + rest.0, rest.1)
  }

  /** One call of a pass: the listener at position `i`, then the rest of
      the pass from the state its operations leave. */
  lemma PassStep(p: PassState, i: nat, script: seq<seq<Op>>)
    requires i < |p.inFlight|
    ensures var q := Steps(p, OpsAt(script, i));
      i + 1 <= |q.inFlight| &&
      Pass(p, i, script) == ([p.inFlight[i]] + Pass(q, i + 1, script).0, Pass(q, i + 1, script).1)
  {
  }

  /** Where a walk in progress stands relative to the whole pass `total`:
      `called` has been called so far, and the rest of the pass from `now`
      at position `i` completes it. */
  ghost predicate Progress(now: PassState, i: nat, called: seq<Listener>,
                           total: (seq<Listener>, PassState), script: seq<seq<Op>>)
  {
    i <= |now.inFlight| &&
    called + Pass(now, i, script).0 == total.0 &&
    Pass(now, i, script).1 == total.1
  }

  /** The first component of the measure a walk decreases. */
  function ScriptLeft(i: nat, script: seq<seq<Op>>): nat {
    if i < |script| then |script| - i else 0
  }

  /** Calling the listener at position `i` and performing its operations
      keeps a walk on track, and the walk's measure goes down. */
  lemma ProgressStep(now: PassState, i: nat, called: seq<Listener>,
                     total: (seq<Listener>, PassState), script: seq<seq<Op>>)
    requires Progress(now, i, called, total, script) && i < |now.inFlight|
    ensures var next := Steps(now, OpsAt(script, i));
      Progress(next, i + 1, called + [now.inFlight[i]], total, script) &&
      (ScriptLeft(i + 1, script) < ScriptLeft(i, script) ||
       (ScriptLeft(i + 1, script) == ScriptLeft(i, script) &&
        |next.inFlight| - (i + 1) < |now.inFlight| - i))
  {
    PassStep(now, i, script);
  }

  /** A walk that has reached the end of the walked array has made the
      whole pass. */
  lemma ProgressDone(now: PassState, i: nat, called: seq<Listener>,
                     total: (seq<Listener>, PassState), script: seq<seq<Op>>)
    requires Progress(now, i, called, total, script) && i == |now.inFlight|
    ensures called == total.0 && now == total.1
  {
  }

  /** A pass calls exactly the entries of the walked array from `i` on, as
      that array stands when the walk ends, and that array still begins with
      the array as it stood at `i`. */
  lemma {:induction false} PassWalksFinalArray(p: PassState, i: nat, script: seq<seq<Op>>)
    requires i <= |p.inFlight|
    ensures var r := Pass(p, i, script);
      p.inFlight <= r.1.inFlight && r.0 == r.1.inFlight[i..]
    decreases if i < |script| then |script| - i else 0, |p.inFlight| - i
  {
    if i < |p.inFlight| {
      var q := Steps(p, OpsAt(script, i));
      PassWalksFinalArray(q, i + 1, script);
      var fin := Pass(q, i + 1, script).1;
      assert fin.inFlight[i..] == [fin.inFlight[i]] + fin.inFlight[i + 1..];
    }
  }

  /** Every listener registered when a pass starts is called, once and in
      registration order, before any listener added during the pass. */
  lemma PassReachesSnapshot(s: seq<Listener>, script: seq<seq<Op>>)
    ensures var called := Pass(Start(s), 0, script).0;
      |s| <= |called| && called[..|s|] == s
  {
    PassWalksFinalArray(Start(s), 0, script);
  }

  /** An operation list without `subscribe`. */
  predicate NoSubscribe(ops: seq<Op>) {
    forall j :: 0 <= j < |ops| ==> ops[j].Unsubscribe?
  }

  lemma {:induction false} StepsKeepInFlight(p: PassState, ops: seq<Op>)
    requires NoSubscribe(ops)
    ensures Steps(p, ops).inFlight == p.inFlight
    decreases |ops|
  {
    if ops != [] {
      StepsKeepInFlight(p, ops[..|ops| - 1]);
    }
  }

  lemma {:induction false} PassWithoutSubscribe(p: PassState, i: nat, script: seq<seq<Op>>)
    requires i <= |p.inFlight|
    requires forall k :: 0 <= k < |script| ==> NoSubscribe(script[k])
    ensures Pass(p, i, script).1.inFlight == p.inFlight
    decreases if i < |script| then |script| - i else 0, |p.inFlight| - i
  {
    if i < |p.inFlight| {
      StepsKeepInFlight(p, OpsAt(script, i));
      PassWithoutSubscribe(Steps(p, OpsAt(script, i)), i + 1, script);
    }
  }

  /** Listeners that only unsubscribe (themselves or others) do not change
      which listeners the pass reaches: exactly the registry at the start. */
  lemma UnsubscribeKeepsPass(s: seq<Listener>, script: seq<seq<Op>>)
    requires forall k :: 0 <= k < |script| ==> NoSubscribe(script[k])
    ensures Pass(Start(s), 0, script).0 == s
  {
    PassWalksFinalArray(Start(s), 0, script);
    PassWithoutSubscribe(Start(s), 0, script);
  }

  /** An operation list without `unsubscribe`. */
  predicate NoUnsubscribe(ops: seq<Op>) {
    forall j :: 0 <= j < |ops| ==> ops[j].Subscribe?
  }

  /** `subscribe` alone keeps the walked array the registry's own. */
  lemma {:induction false} StepsKeepShared(p: PassState, ops: seq<Op>)
    requires p.shared && p.inFlight == p.registry
    requires NoUnsubscribe(ops)
    ensures var q := Steps(p, ops); q.shared && q.inFlight == q.registry
    decreases |ops|
  {
    if ops != [] {
      StepsKeepShared(p, ops[..|ops| - 1]);
    }
  }

  lemma {:induction false} PassKeepsShared(p: PassState, i: nat, script: seq<seq<Op>>)
    requires i <= |p.inFlight|
    requires p.shared && p.inFlight == p.registry
    requires forall k :: 0 <= k < |script| ==> NoUnsubscribe(script[k])
    ensures var q := Pass(p, i, script).1; q.shared && q.inFlight == q.registry
    decreases if i < |script| then |script| - i else 0, |p.inFlight| - i
  {
    if i < |p.inFlight| {
      StepsKeepShared(p, OpsAt(script, i));
      PassKeepsShared(Steps(p, OpsAt(script, i)), i + 1, script);
    }
  }

  /** When listeners only subscribe during a pass, the pass reaches every
      listener the registry holds when it ends, those subscribed during the
      pass included. */
  lemma SubscribeDuringPassIsReached(s: seq<Listener>, script: seq<seq<Op>>)
    requires forall k :: 0 <= k < |script| ==> NoUnsubscribe(script[k])
    ensures Pass(Start(s), 0, script).0 == Pass(Start(s), 0, script).1.registry
  {
    PassWalksFinalArray(Start(s), 0, script);
    PassKeepsShared(Start(s), 0, script);
    var fin := Pass(Start(s), 0, script).1;
    assert fin.inFlight[0..] == fin.inFlight;
  }

  /** For example, a listener that subscribes another one makes the pass
      reach the new listener too. */
  lemma SubscribeDuringPassExample(a: Listener, b: Listener)
    ensures Pass(Start([a]), 0, [[Subscribe(b)]]).0 == [a, b]
  {
    var script := [[Subscribe(b)]];
    var q := Step(Start([a]), Subscribe(b));
    assert q == PassState([a, b], [a, b], true);
    assert [Subscribe(b)][..0] == [];
    assert Steps(Start([a]), OpsAt(script, 0)) == q;
    assert Steps(q, OpsAt(script, 1)) == q;
    assert Pass(q, 2, script) == ([], q);
    assert Pass(q, 1, script).0 == [b];
  }

  /** Once the walked array is no longer the registry's, no operation
      changes it. */
  lemma {:induction false} StepsKeepUnshared(p: PassState, ops: seq<Op>)
    requires !p.shared
    ensures Steps(p, ops).inFlight == p.inFlight && !Steps(p, ops).shared
    decreases |ops|
  {
    if ops != [] {
      StepsKeepUnshared(p, ops[..|ops| - 1]);
    }
  }

  /** Once an `unsubscribe` has replaced the registry's array, the rest of
      the pass calls exactly the array being walked at that point: no later
      `subscribe` is reached. */
  lemma {:induction false} SubscribeAfterUnsubscribeIsNotReached(p: PassState, i: nat, script: seq<seq<Op>>)
    requires i <= |p.inFlight| && !p.shared
    ensures Pass(p, i, script).0 == p.inFlight[i..]
    decreases if i < |script| then |script| - i else 0, |p.inFlight| - i
  {
    if i < |p.inFlight| {
      StepsKeepUnshared(p, OpsAt(script, i));
      SubscribeAfterUnsubscribeIsNotReached(Steps(p, OpsAt(script, i)), i + 1, script);
      assert p.inFlight[i..] == [p.inFlight[i]] + p.inFlight[i + 1..];
    }
  }

  /** For example, a listener that unsubscribes any listener and then
      subscribes another does not make the pass reach the new one. */
  lemma SubscribeAfterUnsubscribeExample(a: Listener, b: Listener, c: Listener)
    ensures Pass(Start([a]), 0, [[Unsubscribe(c), Subscribe(b)]]).0 == [a]
  {
    var script := [[Unsubscribe(c), Subscribe(b)]];
    var q1 := Step(Start([a]), Unsubscribe(c));
    assert q1.inFlight == [a] && !q1.shared;
    var q2 := Step(q1, Subscribe(b));
    assert q2.inFlight == [a];
    var ops := [Unsubscribe(c), Subscribe(b)];
    assert ops[..1] == [Unsubscribe(c)] && ops[..1][..0] == [];
    assert Steps(Start([a]), ops[..1]) == q1;
    assert Steps(Start([a]), ops) == q2;
    assert OpsAt(script, 0) == ops;
    assert Pass(q2, 1, script) == ([], q2);
  }

  /** A pass in which no listener touches the registry calls each listener
      of the registry once, in order, and leaves the registry as it was. */
  lemma {:induction false} QuietPass(p: PassState, i: nat, script: seq<seq<Op>>)
    requires i <= |p.inFlight|
    requires forall k :: 0 <= k < |script| ==> script[k] == []
    ensures Pass(p, i, script) == (p.inFlight[i..], p)
    decreases |p.inFlight| - i
  {
    if i < |p.inFlight| {
      QuietPass(p, i + 1, script);
      assert p.inFlight[i..] == [p.inFlight[i]] + p.inFlight[i + 1..];
    }
  }
}
