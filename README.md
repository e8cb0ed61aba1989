# unistore store core in Dafny

This project models the store of unistore, a small evented state container.
A store holds one state object and an ordered registry of listener
functions. `setState` either overwrites the state or shallow-merges an update
into a fresh copy of it, and then calls the listeners. `dispatch` runs an
action and commits what it returns: nothing, a plain update at once, or a
thenable's value later. `src/subscriber.js` is a stand-alone registry with
the same rules plus `emit`. `src/util.js` holds the helpers `assign`,
`select` and `mapActions`. The older single-file `unistore.js` has a
merge-only store that removes listeners by `indexOf`/`splice` in place and
notifies with `forEach`, plus its own `select`, `assign` and `shallowEqual`.

Modules, in dependency order:

- `Js` (`js.dfy`): the JavaScript values the store can tell apart.
  `undefined` and `null` are distinct. The file also has objects as
  string-keyed maps, property lookup, `split(',')`, and the
  whitespace-trimming split `split(/\s*,\s*/)`.
- `Listeners` (`listeners.dfy`): the registry that `src/index.js` and
  `src/subscriber.js` share line for line. It covers removal of the first
  identical entry, the rebuilding loop of `unsubscribe`, and a pure
  definition of a notification pass (`Pass`).
- `Util` (`util.dfy`): `assign`, `select` and `mapActions`.
- `Store` (`store.dfy`): `createStore` of `src/index.js` as the class
  `Store`.
- `Subscriber` (`subscriber.dfy`): `createSubscriber`.
- `Legacy` (`legacy.dfy`): `unistore.js`.
- `Scenarios` (`scenarios.dfy`): client code in the shape of the
  repository's store tests, proved from the contracts above.

How the model is built:

- **Listeners.** A listener is an opaque identity, `Listener(id)`.
- **Array aliasing.** A JavaScript array of listeners is the class
  `ListenerArray`, so aliasing is explicit. `subscribe` pushes onto the
  registry's array in place. `unsubscribe` installs a rebuilt array.
- **The pass.** A notification pass iterates the array it captured at
  the start and re-reads its length before each call. Because of that,
  what listeners do to the registry while they are called matters.
- **Listener reactions.** What a listener does is a parameter
  `script: seq<seq<Op>>`. `script[i]` lists the `subscribe`/`unsubscribe`
  calls made by the listener called at position `i`.
- **Methods against specification functions.** Each notifying method is
  proved against a pure function of the registry at the start and the
  script: `Pass` for the current store and the emitter, `ForEach` for the
  legacy store. Lemmas then state what those passes do.
- **The call log.** Listener calls are appended to a ghost trace
  (`notified`, `emitted`).

The model follows the code, including where it departs from a
stable-snapshot reading of the registry:

- **Subscribing during a pass.** In `src/index.js` and `src/subscriber.js`,
  a listener subscribed during a pass is called in that same pass, as long
  as no `unsubscribe` has replaced the array yet: a pass whose listeners
  only subscribe calls every listener the registry ends with
  (`Listeners.SubscribeDuringPassIsReached`), and once an `unsubscribe` has
  replaced the array no later `subscribe` is reached
  (`Listeners.SubscribeAfterUnsubscribeIsNotReached`). Only `unsubscribe`
  is snapshot-safe (`Listeners.UnsubscribeKeepsPass`).
- **How much `unsubscribe` removes.** It removes only the first identical
  entry, not all of them.
- **Legacy `forEach`.** In `unistore.js` the pass walks the live array, so
  an `unsubscribe` during the pass can make it skip a listener
  (`Legacy.UnsubscribeDuringPassSkipsNext`). It can also pull a listener
  subscribed during the pass into it
  (`Legacy.UnsubscribeDuringPassReachesSubscribed`). Without an
  `unsubscribe`, the pass calls exactly the array it started with
  (`Legacy.SubscribeDuringPassIsNotReached`).
- **Calling an unsubscriber twice.** This is the same as calling it once
  only for a listener that is registered at most once
  (`Listeners.RemoveFirstTwice`).

## Model

| member | source | states |
|---|---|---|
| Js.Lookup | src/util.js:16 | `state[key]` is the property's value when present and `undefined` when absent |
| Js.Split | unistore.js:89 | `split(',')` gives at least one piece and no piece contains the separator |
| Js.SplitExample | unistore.js:89 | `'a, b'.split(',')` is `['a', ' b']` |
| Js.JoinSplit | unistore.js:89 | joining the pieces of `split(',')` with `,` gives back the string |
| Js.SplitLength | unistore.js:89 | a string with n separators splits into n + 1 pieces |
| Js.TrimStart | src/util.js:12 | the result is a suffix of the input, all dropped characters are `\s`, and it does not start with `\s` |
| Js.TrimEnd | src/util.js:12 | the result is a prefix of the input, all dropped characters are `\s`, and it does not end with `\s` |
| Js.TrimStartKeepsMembers | src/util.js:12 | trimming introduces no character that was not in the input |
| Js.TrimEndKeepsMembers | src/util.js:12 | trimming introduces no character that was not in the input |
| Js.TrimPiece | src/util.js:12 | a piece loses only `\s` at its edges: the result is the piece between two cut points with only `\s` outside them, a side touching no comma is not cut, and a side touching a comma has no `\s` left |
| Js.SplitAtCommas | src/util.js:12 | `split(/\s*,\s*/)` gives one name per piece of `split(',')`, the j-th name being the j-th piece with the whitespace next to its commas dropped; no name contains a comma or has `\s` next to a comma |
| Js.SplitMembers | src/util.js:12 | every character of a piece of `split(',')` comes from the string |
| Js.TrimPieceKeepsPlain | src/util.js:12 | a name without whitespace is kept exactly as written |
| Js.SplitAtCommasPlain | src/util.js:12 | on a string without whitespace, `split(/\s*,\s*/)` gives exactly the pieces of `split(',')`: every name is kept |
| Listeners.RemoveFirstAbsent | src/index.js:18-29 | unsubscribing a listener that is not registered leaves the registry unchanged |
| Listeners.RemoveFirstAt | src/index.js:18-29 | when the listener first occurs at position i, exactly that entry goes and the others keep their order |
| Listeners.RemoveFirstIndexOf | src/index.js:18-29 | removal stated by cases on the first index of the listener |
| Listeners.RemoveFirstMultiset | src/index.js:18-29 | removal takes away one copy of the listener when there is one, and nothing else |
| Listeners.RemoveFirstTwice | src/subscriber.js:30 | for a listener registered at most once, unsubscribing twice equals unsubscribing once, and afterwards it is absent |
| Listeners.RemoveFirstAppended | src/subscriber.js:28-30 | subscribing a new listener and then calling its unsubscriber restores the registry |
| Listeners.RemoveFirstSnoc | src/index.js:20-27 | how removal extends when one more entry is read (the step of the rebuilding loop) |
| Listeners.FirstIndex | unistore.js:23 | `indexOf` is -1 exactly when the listener is absent, otherwise the position of its first occurrence |
| Listeners.Without | src/index.js:18-29 | the rebuilding loop (with `listener = null` after the first match) produces the registry without its first identical entry |
| Listeners.Step | src/index.js:81 | `subscribe` grows the walked array only while it is still the registry's; no operation shrinks it; once unshared, always unshared |
| Listeners.Steps | src/index.js:81 | one listener's operations only grow the walked array |
| Listeners.PassStep | src/index.js:49 | one call of the loop: the listener at `i`, then the rest of the pass |
| Listeners.ProgressStep | src/index.js:49 | each call of the loop keeps the walk on track for the whole pass, and the loop's measure decreases |
| Listeners.ProgressDone | src/index.js:49 | a walk at the end of the array has made the whole pass |
| Listeners.PassWalksFinalArray | src/index.js:48-49 | a pass calls exactly the entries of the walked array, as it stands at the end of the walk, from the start position on |
| Listeners.PassReachesSnapshot | src/index.js:48-49 | every listener registered when `setState` starts is called, once each and in registration order, before any listener added during the pass |
| Listeners.StepsKeepInFlight | src/index.js:19-28 | `unsubscribe` never changes the array being walked |
| Listeners.PassWithoutSubscribe | src/index.js:19-28 | without `subscribe` calls, the walked array stays as it was |
| Listeners.UnsubscribeKeepsPass | src/index.js:48 | if listeners only unsubscribe during a pass, the pass calls exactly the registry at its start |
| Listeners.StepsKeepShared | src/index.js:81 | `subscribe` alone keeps the walked array the registry's own |
| Listeners.PassKeepsShared | src/index.js:48-49 | a pass whose listeners only subscribe still walks the registry's own array when it ends |
| Listeners.SubscribeDuringPassIsReached | src/index.js:48-49 | when listeners only subscribe during a pass, the pass calls exactly the registry it leaves, listeners subscribed during the pass included |
| Listeners.SubscribeDuringPassExample | src/index.js:81 | for example, `[a]` where `a` subscribes `b` calls `a` and then `b` |
| Listeners.StepsKeepUnshared | src/index.js:28 | once the walked array is no longer the registry's, no operation changes it |
| Listeners.SubscribeAfterUnsubscribeIsNotReached | src/index.js:48-49 | once an unsubscribe has replaced the array, the rest of the pass calls exactly the array walked at that point, so no later subscribe is reached |
| Listeners.SubscribeAfterUnsubscribeExample | src/index.js:28 | for example, `[a]` where `a` unsubscribes some listener and then subscribes `b` calls only `a` |
| Listeners.QuietPass | src/index.js:49 | when no listener touches the registry, each listener is called once, in order, and the registry is unchanged |
| Util.Merged | src/util.js:23-26 | after copying, the keys are the union; the update's value wins; other keys keep the base's value |
| Util.MergedEmpty | src/util.js:24 | copying an empty object changes nothing |
| Util.MergedTwice | src/index.js:47 | `assign(assign(x, a), b)` equals copying `a` then `b` merged |
| Util.Assign | src/util.js:23-26 | `assign` mutates `obj` in place to the merge and returns that same object |
| Util.Project | src/util.js:13-18 | the projection has exactly the listed names as keys and each value is `state[name]`, `undefined` when absent |
| Util.TrimPieceExample | src/util.js:12 | the pieces around a comma lose the whitespace next to it |
| Util.SelectTrimsSpaces | src/util.js:12 | `select('a, b')` lists exactly `a` and `b` |
| Util.MapActions | src/util.js:2-7 | after applying a factory, the result has exactly the actions' keys, each bound by `store.action` |
| Store.NotificationsSnoc | src/index.js:49 | the trace of a pass grows by one call per listener called |
| Store.NextState | src/index.js:47 | overwrite makes the state exactly the update; otherwise keys are the union, the update wins, and the old values stay elsewhere |
| Store.NextStateMerges | src/index.js:47 | merging into the fresh copy `assign({}, state)` gives the same state as merging into the state itself |
| Store.Store.constructor | src/index.js:14-16 | a falsy initial state starts at `{}`, with an empty registry |
| Store.Store.GetState | src/index.js:42-44 | `getState` returns the committed state |
| Store.Store.Subscribe | src/index.js:80-83 | the listener is pushed onto the end of the registry's array, in place, and the unsubscriber for it is returned |
| Store.Store.Unsubscribe | src/index.js:18-29 | a new array is installed holding the registry without its first identical entry; state is unchanged |
| Store.Store.CallUnsubscriber | src/index.js:82 | calling the returned closure is `unsubscribe(listener)` |
| Store.Store.Perform | src/index.js:81 | a listener's registry operation changes the pass state as `Step` says |
| Store.Store.PerformAll | src/index.js:81 | a listener's registry operations change the pass state as `Steps` says |
| Store.Store.Deliver | src/index.js:49 | one listener call records `(listener, state, action, update)` and applies its operations |
| Store.Store.Notify | src/index.js:48-49 | the listeners `Pass` computes for the registry at the start are called in order with `(state, action, update)`; the registry ends as the pass leaves it; the state is unchanged |
| Store.Store.SetState | src/index.js:46-50 | the state becomes `NextState(old, update, overwrite)`, then the pass is made with the new state |
| Store.Store.Dispatch | src/index.js:31-40 | a `null`/`undefined` result changes nothing and notifies nobody; a thenable is returned pending with no commit yet; any other result is merged via `setState(ret, false, action)` before returning |
| Store.Store.Settle | src/index.js:32-37 | a thenable's resolved value is merged as `setState(value, false, action)` |
| Subscriber.EmissionsSnoc | src/subscriber.js:23 | the trace of an emit grows by one call per listener called |
| Subscriber.Subscriber.constructor | src/subscriber.js:1-2 | a new emitter has an empty registry |
| Subscriber.Subscriber.Subscribe | src/subscriber.js:28-31 | the listener is pushed onto the end of the registry, and its unsubscriber is returned |
| Subscriber.Subscriber.Unsubscribe | src/subscriber.js:5-16 | a new array is installed holding the registry without its first identical entry |
| Subscriber.Subscriber.CallUnsubscriber | src/subscriber.js:30 | calling the returned closure is `unsubscribe(listener)` |
| Subscriber.Subscriber.Perform | src/subscriber.js:29 | a listener's registry operation changes the pass state as `Step` says |
| Subscriber.Subscriber.PerformAll | src/subscriber.js:29 | a listener's registry operations change the pass state as `Steps` says |
| Subscriber.Subscriber.Call | src/subscriber.js:23 | one listener call records `(listener, args)` and applies its operations |
| Subscriber.Subscriber.Emit | src/subscriber.js:20-25 | the listeners `Pass` computes for the registry at the start are each called with the same arguments, in order; the registry ends as the pass leaves it |
| Legacy.ToInt32 | unistore.js:24 | the operand of `~` is reduced modulo 2^32 into the signed 32-bit range |
| Legacy.BitNotIndex | unistore.js:24 | for every result `indexOf` can give, `~i` is 0 exactly when `i` is -1 |
| Legacy.SpliceStart | unistore.js:24 | the clamped start of `splice` lies within the array |
| Legacy.SpliceNothing | unistore.js:24 | `splice(start, 0)` leaves the array unchanged, including `start = -1` |
| Legacy.SpliceOne | unistore.js:24 | `splice(i, 1)` at a position inside the array removes exactly that entry |
| Legacy.RemovalIsRemoveFirst | unistore.js:22-25 | `splice(indexOf(f), !!~i)` removes the first identical entry, or nothing when `f` is absent |
| Legacy.IndexOf | unistore.js:23 | the search returns the first position of the listener, or -1 |
| Legacy.WalkStep | unistore.js:17 | each index `forEach` visits keeps the walk on track, calling the listener only if the live array still reaches the index |
| Legacy.WalkDone | unistore.js:17 | a walk past the starting length has made the whole pass |
| Legacy.ForEachBound | unistore.js:17 | `forEach` calls at most one listener per index below the starting length |
| Legacy.ForEachQuiet | unistore.js:17 | when no listener touches the registry, every listener is called once, in order |
| Legacy.UnsubscribeDuringPassSkipsNext | unistore.js:17 | with listeners `[a, b, c]` where `a` unsubscribes itself, the pass calls `a` and `c` and skips `b` |
| Legacy.LegacyStepsAppend | unistore.js:19-21 | `subscribe` calls only append to the live array |
| Legacy.ForEachAppendOnly | unistore.js:17 | when no listener unsubscribes, a walk calls exactly the entries of the array below the starting length |
| Legacy.SubscribeDuringPassIsNotReached | unistore.js:17-21 | when no listener unsubscribes during the pass, `forEach` calls exactly the array it started with, so a listener subscribed during the pass is not called |
| Legacy.UnsubscribeDuringPassReachesSubscribed | unistore.js:17-25 | with `[a, b]` where `a` subscribes `c` and then unsubscribes itself, the splice pulls `c` into the pass: it calls `a` and `c` and skips `b` |
| Legacy.CallsSnoc | unistore.js:17 | the trace of a pass grows by one call per listener called |
| Legacy.LegacyStore.constructor | unistore.js:11-12 | an omitted initial state starts at `{}`; a given one is kept; the registry is empty |
| Legacy.LegacyStore.GetState | unistore.js:26-28 | `getState` returns the committed state |
| Legacy.LegacyStore.Subscribe | unistore.js:19-21 | the listener is pushed onto the end of the array; nothing else changes |
| Legacy.LegacyStore.Unsubscribe | unistore.js:22-25 | the array becomes `splice(indexOf(f), !!~i)` applied to it |
| Legacy.LegacyStore.Perform | unistore.js:17 | a listener's registry operation changes the live array as `LegacyStep` says |
| Legacy.LegacyStore.PerformAll | unistore.js:17 | a listener's registry operations change the live array as `LegacySteps` says |
| Legacy.LegacyStore.SetState | unistore.js:15-18 | the state becomes `{ ...state, ...update }`, then the listeners `ForEach` computes are called in order with the new state, and the array ends as that walk leaves it |
| Legacy.SelectKeepsSpaces | unistore.js:89 | here `select('a, b')` lists `a` and ` b`, the space kept |
| Legacy.Project | unistore.js:90-96 | the projection has exactly the listed names as keys and each value is `state[name]` |
| Legacy.LastWith | unistore.js:101-107 | the last source having a key: it has the key, and no later source does |
| Legacy.MergedAllLookup | unistore.js:101-107 | after copying several sources, a key is present iff the base or some source has it; its value is from the last source having it, else from the base |
| Legacy.AssignAll | unistore.js:101-107 | variadic `assign` mutates `obj` to the base with the sources copied left to right, and returns `obj` |
| Legacy.ShallowEqualLoops | unistore.js:111-115 | the two early-returning loops return exactly `ShallowEqual(a, b)` |
| Legacy.ShallowEqualMeans | unistore.js:110-115 | `shallowEqual(a, b)` holds iff `b`'s keys are among `a`'s with identical values and `a`'s other keys hold `undefined` |
| Legacy.ShallowEqualAsymmetric | unistore.js:111-115 | `shallowEqual({x: undefined}, {})` is true and `shallowEqual({}, {x: undefined})` is false |
| Legacy.ShallowEqualBothWays | unistore.js:111-115 | applying it both ways round is exactly equality of the two objects |
| Scenarios.QuietPassFromStart | src/index.js:48-49 | a pass nobody reacts to calls exactly the registry and leaves it unchanged |
| Scenarios.HeardNotifications | src/index.js:49 | the listeners named by the calls of a pass are the listeners called |
| Scenarios.QuietSetState | src/index.js:46-50 | a merging `setState` that no listener reacts to merges the update and calls every registered listener once, in order |
| Scenarios.Merge | src/index.js:47 | a merging `setState` leaves the state merged with the update |
| Scenarios.MergeRun | test/unistore.test.js:14-27 | the five updates of the test leave `{a: 'x', c: undefined}` |
| Scenarios.UpdateInPlace | test/unistore.test.js:14-27 | after the test's updates the state is `{a: 'x', c: undefined}`, with `c` still a key |
| Scenarios.Unsubscription | test/unistore.test.js:50-96 | the four passes reach `[sub1, sub2, sub3]`, `[sub1, sub3]`, `[sub3]` and nobody, and the registry ends empty |
| Scenarios.LegacyQuietSetState | unistore.js:15-18 | on the older store, a `setState` that no listener reacts to merges the update and calls every listener once, in order, with the new state |
| Scenarios.LegacyUnsubscription | unistore.test.js:52-82 | on the older store the three passes reach `[sub1, sub2]`, `[sub1]` and nobody, and the array ends empty |

## Left out

- Provider and connect of `unistore.js`, the Preact and React integrations, the devtools bridge, typings and the build configuration: view-framework and tooling code, not the store.
- Numbers are integers: `NaN`, `-0` and floating point are not modelled, so `!==` is equality of modelled values.
- `for ... in` also visits inherited enumerable properties and follows property order. Objects here are plain maps of own properties, so neither is modelled.
- Store.Store.SetState: with `overwrite` the state becomes the update object itself; the model compares contents, not object identity. The update must be an object (`requires overwrite ==> update.Some?`), because `null` as the whole state is outside the model.
- Store.Store.constructor: any falsy argument (`null`, `0`, `''`, `false`) is the single `None` input; initial states that are truthy but not objects are not modelled.
- Legacy.LegacyStore.constructor: `createStore(null)` keeps `null` as the state in the source. The model has no `null` state, so only an omitted or object argument is modelled.
- Legacy.LegacyStore.SetState: the update is an object. A `null`/`undefined` update spreads to nothing, which is the same as `{}`.
- Legacy.AssignAll: each source is an object. A `null`/`undefined` source copies nothing, which is the same as `{}`.
- Store.Store.Dispatch: the action function is the parameter `run`, applied to the current state. It stands for the call `(action.action || action)(getState, dispatch)`. Actions that call `dispatch` or `setState` themselves are not modelled.
- Store.Store.Settle: promise scheduling, rejection and the ordering of overlapping deferred actions are not modelled. A deferred result is committed by a separate `Settle` step.
- Listener exceptions, and listeners that call `setState`, are not modelled. What a listener does to the registry is given by the `script` parameter.
- `store.action`, which `mapActions` calls, is defined outside this code. It is the parameter `bind`.
- Legacy.LegacyStore.Unsubscribe: the result is stated as the splice the code performs. It equals first-match removal (`Legacy.RemovalIsRemoveFirst`) for arrays up to the JavaScript length limit of 2^32 - 1 entries, and the model does not bound array lengths otherwise.
- Listeners are non-null functions. In `src/index.js` and `src/subscriber.js`, after the first match the rebuilding loop sets `listener` to `null`, so a `null` entry registered by `subscribe(null)` after the match would also be dropped. The model has no `null` listener, so `Listeners.Without` removes exactly the first match.
- The values returned by `splice` and `push` are discarded by the code, and so are not modelled.
- `addMiddleware`, exercised by `unistore.test.js`, is not part of this model because `unistore.js` does not define it.
