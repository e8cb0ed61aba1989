/** The older single-file store of `unistore.js`: `setState` always merges,
    `subscribe` returns nothing, `unsubscribe` splices the one listener
    array in place, and notification walks that same live array with
    `forEach`. Also its `select`, `assign` and `shallowEqual` helpers. */
module Legacy {
  import opened Js
  import opened Listeners
  import Util

  /** The largest length a JavaScript array can have. */
  const ArrayLengthLimit: nat := 0xFFFF_FFFF

  /** The ToInt32 conversion that `~` applies to its operand: the integer
      congruent to `n` modulo 2^32 in the signed 32-bit range. */
  function ToInt32(n: int): (r: int)
    ensures -0x8000_0000 <= r < 0x8000_0000
    ensures (n - r) % 0x1_0000_0000 == 0
  {
    var m := n % 0x1_0000_0000;
    if m >= 0x8000_0000 then m - 0x1_0000_0000 else m
  }

  /** `~n`. */
  function BitNot(n: int): int {
    -ToInt32(n) - 1
  }

  /** On every value `indexOf` can return for an array, `~i` is zero
      exactly for the "not found" result -1. */
  lemma BitNotIndex(i: int)
    requires -1 <= i < ArrayLengthLimit
    ensures BitNot(i) == 0 <==> i == -1
  {
    if i >= 0x8000_0000 {
      assert ToInt32(i) == i - 0x1_0000_0000;
    }
  }

  /** `!!~i` as the delete count of `splice`: `true` counts as 1 and
      `false` as 0. */
  function DeleteCount(i: int): int {
    if BitNot(i) != 0 then 1 else 0
  }

  /** Where `splice(start, ...)` starts on an array of length `len`: a
      negative start counts back from the end, and both ends are clamped. */
  function SpliceStart(len: nat, start: int): (a: nat)
    ensures a <= len
  {
    if start < 0 then (if len + start < 0 then 0 else len + start)
    else if start < len then start
    else len
  }

  /** The contents of an array after `splice(start, deleteCount)`: the
      delete count is clamped to what lies after the start. */
  function Splice(s: seq<Listener>, start: int, deleteCount: int): seq<Listener> {
    var a := SpliceStart(|s|, start);
    var d := if deleteCount < 0 then 0 else if deleteCount > |s| - a then |s| - a else deleteCount;
    s[..a] + s[a + d..]
  }

  /** Deleting nothing leaves the array as it was, wherever the start is. */
  lemma SpliceNothing(s: seq<Listener>, start: int)
    ensures Splice(s, start, 0) == s
  {
    var a := SpliceStart(|s|, start);
    assert s[..a] + s[a..] == s;
  }

  /** Deleting one entry at a position inside the array removes exactly
      that entry. */
  lemma SpliceOne(s: seq<Listener>, i: int)
    requires 0 <= i < |s|
    ensures Splice(s, i, 1) == s[..i] + s[i + 1..]
  {
  }

  /** The registry after `unsubscribe(l)` as written: find `l` with
      `indexOf`, then splice at that index with the delete count `!!~i`. */
  function Removal(s: seq<Listener>, l: Listener): seq<Listener> {
    var i := FirstIndex(s, l);
    Splice(s, i, DeleteCount(i))
  }

  /** For every array JavaScript can hold, the splice removes the first
      entry identical to `l`, and removes nothing when `l` is absent (the
      call is then `splice(-1, false)`). */
  lemma RemovalIsRemoveFirst(s: seq<Listener>, l: Listener)
    requires |s| <= ArrayLengthLimit
    ensures Removal(s, l) == RemoveFirst(s, l)
  {
    var i := FirstIndex(s, l);
    RemoveFirstIndexOf(s, l);
    BitNotIndex(i);
    if i < 0 {
      SpliceNothing(s, i);
    } else {
      SpliceOne(s, i);
    }
  }

  /** `listeners.indexOf(l)`: a forward search with strict equality. */
  method IndexOf(items: seq<Listener>, l: Listener) returns (i: int)
    ensures i == FirstIndex(items, l)
  {
    var k := 0;
    while k < |items|
      invariant 0 <= k <= |items|
      invariant l !in items[..k]
    {
      if items[k] == l {
        return k;
      }
      assert items[..k + 1] == items[..k] + [items[k]];
      k := k + 1;
    }
    assert items[..k] == items;
    return -1;
  }

  /** A registry operation a listener performs on the live array. */
  function LegacyStep(s: seq<Listener>, op: Op): seq<Listener> {
    match op
    case Subscribe(l) => s + [l]
    case Unsubscribe(l) => Removal(s, l)
  }

  /** The operations of one listener call, in order. */
  function LegacySteps(s: seq<Listener>, ops: seq<Op>): seq<Listener>
    decreases |ops|
  {
    if ops == [] then s else LegacyStep(LegacySteps(s, ops[..|ops| - 1]), ops[|ops| - 1])
  }

  /** `listeners.forEach(f => f(state))` from index `k` on, where `len0` is
      the length when `forEach` started: an index is visited only if it is
      below `len0`, and the callback runs only if the index is still inside
      the live array. The result is the listeners called, in order, and the
      array when the walk ends. `script[k]` is what the listener called at
      index `k` does to the registry. */
  function ForEach(items: seq<Listener>, k: nat, len0: nat, script: seq<seq<Op>>): (seq<Listener>, seq<Listener>)
    decreases if k < len0 then len0 - k else 0
  {
    if k >= len0 then ([], items)
    else if k < |items| then
      var rest := ForEach(LegacySteps(items, OpsAt(script, k)), k + 1, len0, script);
      ([items[k]] + rest.0, rest.1)
    else ForEach(items, k + 1, len0, script)
  }

  /** Where a `forEach` walk in progress stands relative to the whole pass
      `total`: `called` has been called so far, and the rest of the walk
      from the live array `items` at index `k` completes it. */
  ghost predicate Walk(items: seq<Listener>, k: nat, len0: nat, called: seq<Listener>,
                           total: (seq<Listener>, seq<Listener>), script: seq<seq<Op>>)
  {
    called + ForEach(items, k, len0, script).0 == total.0 &&
    ForEach(items, k, len0, script).1 == total.1
  }

  /** Visiting index `k` keeps a walk on track: the listener there, if the
      live array still reaches it, is called and its operations performed. */
  lemma WalkStep(items: seq<Listener>, k: nat, len0: nat, called: seq<Listener>,
                     total: (seq<Listener>, seq<Listener>), script: seq<seq<Op>>)
    requires Walk(items, k, len0, called, total, script) && k < len0
    ensures k < |items| ==>
      Walk(LegacySteps(items, OpsAt(script, k)), k + 1, len0, called + [items[k]], total, script)
    ensures k >= |items| ==> Walk(items, k + 1, len0, called, total, script)
  {
  }

  /** A walk past the starting length has made the whole pass. */
  lemma WalkDone(items: seq<Listener>, k: nat, len0: nat, called: seq<Listener>,
                     total: (seq<Listener>, seq<Listener>), script: seq<seq<Op>>)
    requires Walk(items, k, len0, called, total, script) && k >= len0
    ensures called == total.0 && items == total.1
  {
  }

  /** A walk calls at most one listener per index it visits. */
  lemma {:induction false} ForEachBound(items: seq<Listener>, k: nat, len0: nat, script: seq<seq<Op>>)
    ensures |ForEach(items, k, len0, script).0| <= if k < len0 then len0 - k else 0
    decreases if k < len0 then len0 - k else 0
  {
    if k < len0 {
      if k < |items| {
        ForEachBound(LegacySteps(items, OpsAt(script, k)), k + 1, len0, script);
      } else {
        ForEachBound(items, k + 1, len0, script);
      }
    }
  }

  /** When no listener touches the registry, every listener from `k` on is
      called once, in order, and the registry is unchanged. */
  lemma {:induction false} ForEachQuiet(items: seq<Listener>, k: nat)
    requires k <= |items|
    ensures ForEach(items, k, |items|, []) == (items[k..], items)
    decreases |items| - k
  {
    if k < |items| {
      assert LegacySteps(items, OpsAt([], k)) == items;
      ForEachQuiet(items, k + 1);
      assert items[k..] == [items[k]] + items[k + 1..];
    } else {
      assert items[k..] == [];
    }
  }

  /** Unsubscribing during `forEach` shifts the rest of the live array
      down, so the listener after the removed one is skipped: with three
      listeners where the first unsubscribes itself, the pass calls the
      first and the third. */
  lemma UnsubscribeDuringPassSkipsNext(a: Listener, b: Listener, c: Listener)
    requires a != b && a != c
    ensures ForEach([a, b, c], 0, 3, [[Unsubscribe(a)]]) == ([a, c], [b, c])
  {
    var ops := [Unsubscribe(a)];
    assert OpsAt([ops], 0) == ops;
    assert ops[..0] == [];
    assert FirstIndex([a, b, c], a) == 0;
    BitNotIndex(0);
    SpliceOne([a, b, c], 0);
    assert [a, b, c][1..] == [b, c];
    assert LegacySteps([a, b, c], ops) == [b, c];
    assert LegacySteps([b, c], OpsAt([ops], 1)) == [b, c];
    assert ForEach([b, c], 3, 3, [ops]) == ([], [b, c]);
    assert ForEach([b, c], 2, 3, [ops]) == ([], [b, c]);
    assert [b, c][1] == c && [c] + [] == [c];
    assert ForEach([b, c], 1, 3, [ops]) == ([c], [b, c]);
    assert [a, b, c][0] == a && [a] + [c] == [a, c];
  }

  /** `subscribe` calls only append to the live array. */
  lemma {:induction false} LegacyStepsAppend(items: seq<Listener>, ops: seq<Op>)
    requires NoUnsubscribe(ops)
    ensures items <= LegacySteps(items, ops)
    decreases |ops|
  {
    if ops != [] {
      LegacyStepsAppend(items, ops[..|ops| - 1]);
    }
  }

  lemma {:induction false} ForEachAppendOnly(items: seq<Listener>, k: nat, len0: nat, script: seq<seq<Op>>)
    requires k <= len0 <= |items|
    requires forall j :: 0 <= j < |script| ==> NoUnsubscribe(script[j])
    ensures ForEach(items, k, len0, script).0 == items[k..len0]
    decreases len0 - k
  {
    if k < len0 {
      var next := LegacySteps(items, OpsAt(script, k));
      LegacyStepsAppend(items, OpsAt(script, k));
      ForEachAppendOnly(next, k + 1, len0, script);
      assert next[k + 1..len0] == items[k + 1..len0];
      assert items[k..len0] == [items[k]] + items[k + 1..len0];
    }
  }

  /** When no listener unsubscribes during the pass, `forEach` calls
      exactly the array it started with: a listener subscribed during the
      pass lies beyond the starting length and is not called. */
  lemma SubscribeDuringPassIsNotReached(s: seq<Listener>, script: seq<seq<Op>>)
    requires forall j :: 0 <= j < |script| ==> NoUnsubscribe(script[j])
    ensures ForEach(s, 0, |s|, script).0 == s
  {
    ForEachAppendOnly(s, 0, |s|, script);
    assert s[0..|s|] == s;
  }

  /** An unsubscribe can pull a just-subscribed listener into the pass:
      with `[a, b]` where `a` subscribes `c` and then unsubscribes itself,
      the splice shifts `c` down to index 1, so the pass calls `a` and `c`
      and skips `b`. */
  lemma UnsubscribeDuringPassReachesSubscribed(a: Listener, b: Listener, c: Listener)
    requires a != b && a != c
    ensures ForEach([a, b], 0, 2, [[Subscribe(c), Unsubscribe(a)]]) == ([a, c], [b, c])
  {
    var ops := [Subscribe(c), Unsubscribe(a)];
    var script := [ops];
    assert OpsAt(script, 0) == ops;
    assert ops[..1] == [Subscribe(c)] && ops[..1][..0] == [];
    assert LegacySteps([a, b], ops[..1]) == [a, b, c];
    assert FirstIndex([a, b, c], a) == 0;
    BitNotIndex(0);
    SpliceOne([a, b, c], 0);
    assert [a, b, c][1..] == [b, c];
    assert LegacySteps([a, b], ops) == [b, c];
    assert LegacySteps([b, c], OpsAt(script, 1)) == [b, c];
    assert ForEach([b, c], 2, 2, script) == ([], [b, c]);
    assert [b, c][1] == c && [c] + [] == [c];
    assert ForEach([b, c], 1, 2, script) == ([c], [b, c]);
    assert [a, b][0] == a && [a] + [c] == [a, c];
  }

  /** One listener call `f(state)`. */
  datatype Call = Call(listener: Listener, state: State)

  /** The calls a pass makes to `called`, in order. */
  function Calls(called: seq<Listener>, state: State): seq<Call> {
    seq(|called|, j requires 0 <= j < |called| => Call(called[j], state))
  }

  lemma CallsSnoc(called: seq<Listener>, l: Listener, state: State)
    ensures Calls(called + [l], state) == Calls(called, state) + [Call(l, state)]
  {
  }

  class LegacyStore {
    var state: State
    var listeners: seq<Listener>
    /** Every listener call made so far, in order. */
    ghost var notified: seq<Call>

    /** `createStore(state={})`: an omitted (`undefined`, here `None`)
        argument starts from `{}`. */
    constructor (initial: Option<State>)
      ensures initial.None? ==> state == map[]
      ensures initial.Some? ==> state == initial.value
      ensures listeners == [] && notified == []
    {
      state := match initial case None => map[] case Some(s) => s;
      listeners := [];
      notified := [];
    }

    /** `getState()`. */
    function GetState(): (s: State)
      reads this
      ensures s == state
    {
      state
    }

    /** `subscribe(f)`: push onto the array, returning nothing. */
    method Subscribe(f: Listener)
      modifies this
      ensures listeners == old(listeners) + [f]
      ensures state == old(state) && notified == old(notified)
    {
      listeners := listeners + [f];
    }

    /** `unsubscribe(f)`: `splice(indexOf(f), !!~i)` on the array, in place. */
    method Unsubscribe(f: Listener)
      modifies this
      ensures listeners == Removal(old(listeners), f)
      ensures state == old(state) && notified == old(notified)
    {
      var i := IndexOf(listeners, f);
      listeners := Splice(listeners, i, DeleteCount(i));
    }

    /** One registry operation performed by a listener during a pass. */
    method Perform(op: Op)
      modifies this
      ensures listeners == LegacyStep(old(listeners), op)
      ensures state == old(state) && notified == old(notified)
    {
      match op
      case Subscribe(l) =>
        Subscribe(l);
      case Unsubscribe(l) =>
        Unsubscribe(l);
    }

    /** The registry operations of one listener call, in order. */
    method PerformAll(ops: seq<Op>)
      modifies this
      ensures listeners == LegacySteps(old(listeners), ops)
      ensures state == old(state) && notified == old(notified)
    {
      var j := 0;
      while j < |ops|
        invariant 0 <= j <= |ops|
        invariant listeners == LegacySteps(old(listeners), ops[..j])
        invariant state == old(state) && notified == old(notified)
      {
        Perform(ops[j]);
        assert ops[..j + 1][..j] == ops[..j];
        j := j + 1;
      }
      assert ops[..j] == ops;
    }

    /** `setState(update)`: the new state is `{ ...state, ...update }`, then
        `forEach` calls the listeners of the live array with it. */
    method SetState(update: State, script: seq<seq<Op>>)
      modifies this
      ensures state == Util.Merged(old(state), update)
      ensures var pass := ForEach(old(listeners), 0, |old(listeners)|, script);
        notified == old(notified) + Calls(pass.0, state) && listeners == pass.1
    {
      state := Util.Merged(state, update);
      var len0 := |listeners|;
      ghost var total := ForEach(listeners, 0, len0, script);
      ghost var called: seq<Listener> := [];
      var k := 0;
      while k < len0
        invariant k <= len0
        invariant state == Util.Merged(old(state), update)
        invariant Walk(listeners, k, len0, called, total, script)
        invariant notified == old(notified) + Calls(called, state)
      {
        ghost var items := listeners;
        WalkStep(items, k, len0, called, total, script);
        if k < |listeners| {
          var f := listeners[k];
          notified := notified + [Call(f, state)];
          PerformAll(OpsAt(script, k));
          assert listeners == LegacySteps(items, OpsAt(script, k));
          CallsSnoc(called, f, state);
          called := called + [f];
        }
        k := k + 1;
      }
      WalkDone(listeners, k, len0, called, total, script);
    }
  }

  /** The names the `select` of this file lists: a string is split at every
      `,` and nothing is trimmed. */
  function SelectedNames(properties: Util.Selector): seq<string> {
    match properties
    case Names(names) => names
    case Text(text) => Split(text, ',')
  }

  /** Here `select('a, b')` keeps the space: the second name is ` b`. */
  lemma SelectKeepsSpaces(a: char, b: char)
    requires a != ',' && b != ','
    ensures SelectedNames(Util.Text([a, ',', ' ', b])) == [[a], [' ', b]]
  {
    SplitExample(a, b);
  }

  /** The function `select` returns, applied to `state`: walk the names from
      the first to the last, copying `state[name]` into a new object. */
  method Project(names: seq<string>, state: State) returns (selected: State)
    ensures selected.Keys == set j | 0 <= j < |names| :: names[j]
    ensures forall k :: k in selected ==> selected[k] == Lookup(state, k)
  {
    selected := map[];
    var i := 0;
    while i < |names|
      invariant 0 <= i <= |names|
      invariant selected.Keys == set j | 0 <= j < i :: names[j]
      invariant forall k :: k in selected ==> selected[k] == Lookup(state, k)
    {
      selected := selected[names[i] := Lookup(state, names[i])];
      i := i + 1;
    }
  }

  /** Copying the sources onto `base` one after the other. */
  function MergedAll(base: State, sources: seq<State>): State
    decreases |sources|
  {
    if sources == [] then base
    else Util.Merged(MergedAll(base, sources[..|sources| - 1]), sources[|sources| - 1])
  }

  /** The last source that has the key `k`, or -1 when none has it. */
  function LastWith(sources: seq<State>, k: string): (j: int)
    ensures -1 <= j < |sources|
    ensures j >= 0 ==> k in sources[j]
    ensures forall i :: j < i < |sources| ==> k !in sources[i]
    decreases |sources|
  {
    if sources == [] then -1
    else if k in sources[|sources| - 1] then |sources| - 1
    else LastWith(sources[..|sources| - 1], k)
  }

  /** After copying several sources, a key is present when the base or some
      source has it, and its value comes from the last source that has it,
      or from the base when no source has it. */
  lemma {:induction false} MergedAllLookup(base: State, sources: seq<State>, k: string)
    ensures k in MergedAll(base, sources) <==> k in base || LastWith(sources, k) >= 0
    ensures Lookup(MergedAll(base, sources), k) ==
      if LastWith(sources, k) >= 0 then sources[LastWith(sources, k)][k] else Lookup(base, k)
    decreases |sources|
  {
    if sources != [] {
      MergedAllLookup(base, sources[..|sources| - 1], k);
    }
  }

  /** `assign(obj, p1, ..., pn)`: copy each source's properties onto `obj`
      in place, from the first source to the last, and return `obj`. */
  method AssignAll(obj: Obj, sources: seq<State>) returns (r: Obj)
    modifies obj
    ensures r == obj
    ensures obj.props == MergedAll(old(obj.props), sources)
  {
    var i := 0;
    while i < |sources|
      invariant 0 <= i <= |sources|
      invariant obj.props == MergedAll(old(obj.props), sources[..i])
    {
      var _ := Util.Assign(obj, sources[i]);
      assert sources[..i + 1][..i] == sources[..i];
      i := i + 1;
    }
    assert sources[..i] == sources;
    r := obj;
  }

  /** `shallowEqual(a, b)`: every property of `a` is identical to `b`'s
      property of that name (`undefined` when `b` lacks it), and every
      property of `b` is a property of `a`. */
  predicate ShallowEqual(a: State, b: State) {
    (forall k :: k in a ==> Lookup(b, k) == a[k]) && (forall k :: k in b ==> k in a)
  }

  /** The two `for ... in` loops of `shallowEqual`, each returning `false`
      at the first property that fails. */
  method ShallowEqualLoops(a: State, b: State) returns (eq: bool)
    ensures eq == ShallowEqual(a, b)
  {
    var pending := a.Keys;
    while pending != {}
      invariant pending <= a.Keys
      invariant forall k :: k in a && k !in pending ==> Lookup(b, k) == a[k]
      decreases pending
    {
      var k :| k in pending;
      if Lookup(b, k) != a[k] {
        return false;
      }
      pending := pending - {k};
    }
    pending := b.Keys;
    while pending != {}
      invariant pending <= b.Keys
      invariant forall k :: k in b && k !in pending ==> k in a
      decreases pending
    {
      var k :| k in pending;
      if k !in a {
        return false;
      }
      pending := pending - {k};
    }
    return true;
  }

  /** What `shallowEqual(a, b)` means: `b`'s keys are among `a`'s with the
      same values, and the keys only `a` has hold `undefined`. */
  lemma ShallowEqualMeans(a: State, b: State)
    ensures ShallowEqual(a, b) <==>
      b.Keys <= a.Keys &&
      (forall k :: k in b ==> b[k] == a[k]) &&
      (forall k :: k in a && k !in b ==> a[k] == Undefined)
  {
  }

  /** The test is not symmetric: `{x: undefined}` shallow-equals `{}`, but
      `{}` does not shallow-equal `{x: undefined}`. */
  lemma ShallowEqualAsymmetric(x: string)
    ensures ShallowEqual(map[x := Undefined], map[])
    ensures !ShallowEqual(map[], map[x := Undefined])
  {
    assert x in map[x := Undefined];
  }

  /** Applied both ways round, the test is exactly equality of the two objects. */
  lemma ShallowEqualBothWays(a: State, b: State)
    ensures ShallowEqual(a, b) && ShallowEqual(b, a) <==> a == b
  {
    if ShallowEqual(a, b) && ShallowEqual(b, a) {
      assert a.Keys == b.Keys;
      assert forall k :: k in a ==> a[k] == b[k];
    }
  }
}
