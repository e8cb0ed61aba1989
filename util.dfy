/** The helpers of `src/util.js`: an in-place property copy, a projection
    of the state onto a list of keys, and the binding of a table of actions. */
module Util {
  import opened Js

  /** The result of copying every property of `update` onto `base`: all keys
      of both, the value from `update` where both have the key, the value
      from `base` elsewhere. */
  function Merged(base: State, update: State): (r: State)
    ensures r.Keys == base.Keys + update.Keys
    ensures forall k :: k in update ==> r[k] == update[k]
    ensures forall k :: k in base && k !in update ==> r[k] == base[k]
  {
    base + update
  }

  /** Merging an empty update changes nothing. */
  lemma MergedEmpty(base: State)
    ensures Merged(base, map[]) == base
  {
  }

  /** Two merges with the same base compose into one merge of the updates
      merged in order. */
  lemma MergedTwice(base: State, u1: State, u2: State)
    ensures Merged(Merged(base, u1), u2) == Merged(base, Merged(u1, u2))
  {
  }

  /** `assign(obj, props)`: copy each own property of `props` onto `obj`,
      in place, and return `obj` itself. */
  method Assign(obj: Obj, props: State) returns (r: Obj)
    modifies obj
    ensures r == obj
    ensures obj.props == Merged(old(obj.props), props)
  {
    var pending := props.Keys;
    ghost var copied: State := map[];
    while pending != {}
      invariant pending !! copied.Keys && pending + copied.Keys == props.Keys
      invariant forall k :: k in copied ==> copied[k] == props[k]
      invariant obj.props == old(obj.props) + copied
      decreases pending
    {
      var k :| k in pending;
      obj.props := obj.props[k := props[k]];
      copied := copied[k := props[k]];
      pending := pending - {k};
    }
    assert copied == props;
    r := obj;
  }

  /** The argument of `select`: a list of property names, or one string
      holding them separated by commas. */
  datatype Selector = Names(names: seq<string>) | Text(text: string)

  /** The property names a selector lists; a string is split at commas with
      the whitespace around each comma dropped. */
  function SelectedNames(properties: Selector): seq<string> {
    match properties
    case Names(names) => names
    case Text(text) => SplitAtCommas(text)
  }

  /** The function `select` returns, applied to `state`: walk the names from
      the last to the first, copying `state[name]` into a new object. */
  method Project(names: seq<string>, state: State) returns (selected: State)
    ensures selected.Keys == set j | 0 <= j < |names| :: names[j]
    ensures forall k :: k in selected ==> selected[k] == Lookup(state, k)
  {
    selected := map[];
    var i := |names|;
    while i > 0
      invariant 0 <= i <= |names|
      invariant selected.Keys == set j | i <= j < |names| :: names[j]
      invariant forall k :: k in selected ==> selected[k] == Lookup(state, k)
    {
      i := i - 1;
      selected := selected[names[i] := Lookup(state, names[i])];
    }
  }

  /** The two pieces of `a, b` lose the space next to the comma. */
  lemma TrimPieceExample(a: char, b: char)
    requires !IsSpace(a) && !IsSpace(b)
    ensures TrimPiece([a], false, true) == [a]
    ensures TrimPiece([' ', b], true, false) == [b]
  {
    assert IsSpace(' ');
    assert [' ', b][1..] == [b];
    assert TrimStart([b]) == [b];
    assert TrimStart([' ', b]) == [b];
  }

  /** `select('a, b')` picks the keys `a` and `b`: the space after the comma
      is not part of a name. */
  lemma SelectTrimsSpaces(a: char, b: char)
    requires a != ',' && b != ',' && !IsSpace(a) && !IsSpace(b)
    ensures SelectedNames(Text([a, ',', ' ', b])) == [[a], [b]]
  {
    SplitExample(a, b);
    TrimPieceExample(a, b);
    var names := SplitAtCommas([a, ',', ' ', b]);
    assert |names| == 2;
    assert names[0] == TrimPiece([a], false, true);
    assert names[1] == TrimPiece([' ', b], true, false);
  }

  /** The argument of `mapActions`: a table of actions, or a factory that
      builds one from the store. */
  datatype ActionSource<!S, A> = Table(actions: map<string, A>) | Factory(make: S -> map<string, A>)

  /** The table of actions `mapActions` binds: the factory's result when it
      is given a factory. */
  function ActionTable<S, A>(actions: ActionSource<S, A>, store: S): map<string, A> {
    match actions
    case Table(t) => t
    case Factory(make) => make(store)
  }

  /** `mapActions(actions, store)`: the same keys, each bound by
      `store.action`, which is passed in as `bind`. */
  method MapActions<S, A, B>(actions: ActionSource<S, A>, store: S, bind: A -> B)
    returns (mapped: map<string, B>)
    ensures mapped.Keys == ActionTable(actions, store).Keys
    ensures forall k :: k in mapped ==> mapped[k] == bind(ActionTable(actions, store)[k])
  {
    var table := ActionTable(actions, store);
    mapped := map[];
    var pending := table.Keys;
    while pending != {}
      invariant pending <= table.Keys
      invariant mapped.Keys == table.Keys - pending
      invariant forall k :: k in mapped ==> mapped[k] == bind(table[k])
      decreases pending
    {
      var k :| k in pending;
      mapped := mapped[k := bind(table[k])];
      pending := pending - {k};
    }
  }
}
