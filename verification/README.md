# pulse — a verified model of the shared-state core

`pulse` is a small shared-state library for React. A *cell* (`Pulse`) holds
one value; it may be *keyed*, in which case its value is persisted under that
key in one of two browser storage namespaces (local or session). Every write
to a cell is *published* on one process-wide broadcast channel, and every
component attached to the cell through `usePulse` (a *binding*) copies the
published value into the cell and into its own snapshot, then runs its
optional callback through an idle → processing → finished state machine.

This project models that core in Dafny and proves what it promises:

- `types.dfy` (module `Types`): storage kinds with their codes 1 and 2, the
  JSON scalar values a cell holds (numbers are the integers of magnitude at
  most 2^53 - 1, all of which a JavaScript number holds exactly), JavaScript truthiness, creation
  parameters, the envelope the channel carries, and the cell as a class
  whose only mutable field is `value`.
- `json.dfy` (module `Json`): `JSON.stringify` / `JSON.parse` on those
  values as a concrete codec. On these values `Encode` writes what
  `JSON.stringify` writes (escapes, lower-case `\u00xx`, no leading zeros,
  `-` sign; a safe integer never reaches the exponent form `1e+21`); `Decode`
  accepts exactly the texts `Encode` writes. The two are proved inverse in
  both directions, so the codec is injective.
- `utils.dfy` (module `Utils`): the key registry `keyCache` with `checkKey`,
  and the two storage namespaces with `persistantStorageSet` /
  `persistantStorageGet`, as classes whose fields the methods update.
- `broadcast.dfy` (module `Broadcast`): the binding's callback state machine
  as functions on a run state, the binding as a class with `Deliver` and
  `Settle`, and the channel as a class holding the ordered subscriber list,
  with `Subscribe`, `Unsubscribe` and `Publish` (a loop over the subscribers
  that delivers to those of the envelope's id).
- `index.dfy` (module `Index`): `pulse`, `setPulseValue`, `getPulseValue` and
  the mount of `usePulse`, plus client scenarios that chain them.

The process-wide singletons of the library (the key registry, the two
storage namespaces, the channel) are objects passed to each operation. The
fresh id of a new cell (the library draws it from the clock and
`Math.random`) is a parameter. A callback is tagged `Sync(run)` or `Async`:
`run(n)` says how the synchronous callback's `n`-th invocation ends, and an
asynchronous run ends at an explicit `Settle(outcome)` step.

Behaviour kept as the code has it:

- A keyed cell adopts its stored value only when that value is truthy; a
  stored `0`, `false`, `""` or `null` is treated as absent and overwritten
  with the default (src/index.ts:22-26). `Index.SetThenRecreate` shows the
  consequence: a falsy value does not survive a reload.
- A binding's first snapshot is the cell's default value, not the value the
  cell holds when the binding is attached (src/index.ts:34).
- `setPulseValue` never assigns the cell's value itself; only subscribers
  of the cell's id do (src/index.ts:52). `Index.SetThenGetUnbound` shows the
  consequence: an unkeyed cell that no binding is attached to keeps
  answering with its old value.
- `getPulseValue` reads a keyed cell from storage under the cell's own
  storage kind (src/index.ts:126-128).
- The cell record carries `defaultValue` although the `Pulse` interface at
  src/types.ts:9-14 does not list it: the code sets it and reads it
  (src/index.ts:15, 34, 118).

## Model

| member | source | states |
|---|---|---|
| Types.StorageKind.Code | src/types.ts:3-7 | Local has code 1 and Session has code 2, and no kind has the other's code |
| Types.Truthy | src/index.ts:22 | exactly null, false, 0 and the empty string are falsy |
| Json.Encode | src/utils.ts:35 | the written text is never empty, is quoted exactly for a string, and starts with a minus sign exactly for a negative number |
| Json.Decode | src/utils.ts:47 | only a non-empty text reads as a value; it reads as a string exactly when it is quoted, and as a negative number exactly when it starts with a minus sign |
| Json.DecodeEncode | src/utils.ts:47 | parsing the text written for any value gives that value back |
| Json.EncodeDecode | src/utils.ts:33 | every text that parses is exactly the text written for the parsed value |
| Json.EncodeInjective | src/utils.ts:35 | distinct values are stored as distinct texts |
| Utils.KeyRegistry.CheckKey | src/utils.ts:16-28 | an empty key is accepted and registers nothing; a registered key is refused with the duplicate-key error and the registry is unchanged; a fresh key is accepted and registered |
| Utils.CheckKeyAsWritten | src/utils.ts:16-28 | as written: a key is refused exactly when it is non-empty and either registered or a name inherited from `Object.prototype`; a refusal carries the duplicate-key error and registers nothing; an accepted empty key registers nothing, an accepted non-empty key is registered |
| Utils.InheritedKeyRefusedAsWritten | src/utils.ts:20 | as written, every inherited name such as "toString" is refused as a duplicate whatever the registry holds, from the empty registry included, although no cell registered that key |
| Utils.ReadEntry | src/utils.ts:47 | a missing or empty entry reads as null; any other entry reads successfully exactly when it parses, and then its text is the encoding of what is read; otherwise the error carries the entry's text |
| Utils.ReadAfterWrite | src/utils.ts:31-48 | a value written under a key reads back unchanged |
| Utils.Storage.Set | src/utils.ts:31-37 | the chosen namespace (Local when none is given) maps the key to the value's encoding, all its other keys unchanged, and the other namespace is unchanged |
| Utils.Storage.Get | src/utils.ts:39-48 | the result is the read of the key in the chosen namespace (Local when none is given) and in no other |
| Broadcast.Binding.constructor | src/index.ts:34-37 | a new binding's snapshot is its cell's default value, and it is idle: not processing, not finished, null result |
| Broadcast.Binding.Deliver | src/index.ts:51-87 | the value goes into the cell and the snapshot; the run state takes one callback step, which the guard skips while a run is pending; the binding stays consistent |
| Broadcast.Binding.Settle | src/index.ts:62-71 | a pending asynchronous run ends: not processing, finished, result is the resolved value or null; the snapshot is unchanged |
| Broadcast.OnDelivery | src/index.ts:55-85 | the callback step of one delivery: without a callback, or while the guard's flag is set, the run state is unchanged; otherwise the callback is invoked once, and the binding is processing and not finished for an asynchronous callback, finished and not processing for a synchronous one |
| Broadcast.OnSettle | src/index.ts:62-71 | the end of an asynchronous run: not processing, finished, no new invocation, result the resolved value or null on rejection |
| Broadcast.DeliverRepeatedly | src/index.ts:56 | with the guard on the binding's current flag, n deliveries invoke the callback at most n times |
| Broadcast.DeliverRepeatedlyAsWritten | src/index.ts:56 | as written, n deliveries invoke a callback exactly n times, and change nothing without one |
| Broadcast.ConsistentPreserved | src/index.ts:55-85 | a delivery and a settle keep a binding consistent: only a pending asynchronous run is processing, and a pending run is not finished |
| Broadcast.SyncRunCompletes | src/index.ts:73-84 | after a delivery a synchronous callback has run once and ended: not processing, finished, result is its return value or null if it threw |
| Broadcast.AsyncRunSettles | src/index.ts:60-72 | after a delivery an asynchronous callback is processing and not finished; after it settles it is finished with the resolved value or null |
| Broadcast.PendingRunAbsorbsDeliveries | src/index.ts:56-58 | any number of deliveries during a pending asynchronous run leave the run state as it was |
| Broadcast.OneInvocationPerPendingRun | src/index.ts:55-72 | from idle, any burst of deliveries invokes an asynchronous callback exactly once, and the run finishes when it settles |
| Broadcast.StaleGuardRunsTwice | src/index.ts:56 | as written, two quick deliveries start two asynchronous runs; with the guard on the current flag they start one |
| Broadcast.Channel.Subscribe | src/index.ts:47-51 | the binding joins the end of the subscriber list |
| Broadcast.Channel.Unsubscribe | src/index.ts:89-91 | the binding leaves the list, the others keep their order, and no other subscriber or cell joins |
| Broadcast.Channel.Publish | src/index.ts:47-53 | every subscriber whose cell has the envelope's id gets the value in its snapshot and its cell and takes one callback step; every other subscriber and its cell is unchanged; the list is unchanged and the envelope is logged |
| Index.CreatePulse | src/index.ts:9-31 | the storage kind defaults to Local; without a key the value is the default and neither registry nor storage is touched; a key in use fails before storage is read; a fresh key is registered, then a truthy stored value is adopted without a write, a falsy or missing one is replaced by the default in the cell's namespace only, and an unparsable one fails; a keyed cell then agrees with storage; a created cell is published once as it stands, a failed creation publishes nothing |
| Index.SetPulseValue | src/index.ts:110-123 | a keyed cell's value is written under its own kind only, and reads back; an unkeyed cell leaves storage alone; exactly one envelope with the cell's id, key, kind and default and the new value is published; every subscriber of the id, the writer's own binding included, shows the value; the same cell is returned, and its value is not assigned unless a binding of it is subscribed |
| Index.GetPulseValue | src/index.ts:125-130 | a keyed cell is read from storage under its own kind; an unkeyed cell answers with its value |
| Index.Attach | src/index.ts:33-51 | a new idle binding whose snapshot is the default value joins the end of the subscriber list |
| Index.SetThenGet | src/index.ts:110-130 | a keyed cell read after a write gives the written value |
| Index.SetThenGetUnbound | src/index.ts:110-130 | an unkeyed cell without subscribers reads its old value after a write |
| Index.SetThenRecreate | src/index.ts:19-26 | a cell recreated in a new process with the same key and kind adopts the written value if it is truthy and its default otherwise |
| Index.DetachThenSet | src/index.ts:89-91 | after unsubscribing, a write to the binding's cell leaves its snapshot and run state as they were |

## Left out

- React hook machinery (`useState`, `useEffect`, `useCallback`, re-rendering, the returned tuple): a binding is an object whose fields are its state slots, attached with `Index.Attach` and detached with `Broadcast.Channel.Unsubscribe`; its setter is `Index.SetPulseValue` on its cell.
- `usePulseValue` and `usePulseSetValue`: they only project the snapshot and the setter of a binding.
- The rxjs `Subject`, `pipe`, `filter` and `map`: replaced by the channel's explicit subscriber list filtered on the cell id; the empty `pulseObserver.subscribe()` at src/index.ts:7 has no effect and is not modelled.
- `getUniqueId` and `getRandomInt` (clock, `Math.random`, floating point): the new cell's id is a parameter, and ids are not assumed unique.
- `console.error` logging.
- Promise scheduling: an asynchronous run ends at an explicit `Settle` step; callbacks that publish or write cells themselves are not modelled.
- The `callback.constructor.name === "AsyncFunction"` test: the callback carries its kind as a tag.
- The stale capture of `callback` and `pulseObject` by the subscriber when a component re-renders with other arguments for the same id: a binding keeps the callback and cell it was attached with.
- Storage failures (a full quota, storage disabled) and a `storageType` other than 1 or 2: the storage kind is one of the two enum members.
- Json.Decode: accepts only the texts `JSON.stringify` writes for a scalar; other valid JSON (whitespace, fractions, exponents, `\/`, upper-case hex, `\u` escapes of printable characters) reads as a parse error where `JSON.parse` would accept it.
- Values: only JSON scalars with safe integers (magnitude at most 2^53 - 1); fractional numbers, larger integers (which `JSON.stringify` writes in exponent form from 10^21 on), arrays and objects are not modelled, and Json.Decode reads the text of an integer beyond the safe range as a parse error where `JSON.parse` rounds it.
- `undefined`: a callback of type `() => void` returns `undefined`, which the result slot stores; here a callback's outcome is always a value (`Returned(v)`) or a throw, so a run that returns nothing is modelled as returning some value.
- Broadcast.Channel.Publish: does not state the order in which subscribers are reached; the loop visits them in subscription order, and no subscriber's step depends on another's.

## Findings

| source | as written | input that shows it | evidently intended | confidence | as-written member | corrected member |
|---|---|---|---|---|---|---|
| src/index.ts:56 | the guard reads the `isProcessing` captured when the subscription was made (the effect depends on `[id]` only), which is false for the subscription made at mount | two deliveries to a freshly mounted binding with an asynchronous callback before the first run settles | the second delivery does not invoke the callback while the first run is pending | not executed; follows from the closure capture rules of React effects | Broadcast.StaleGuardRunsTwice | Broadcast.OneInvocationPerPendingRun |
| src/utils.ts:20 | `keyCache[key]` on a plain object is also truthy for names inherited from `Object.prototype` | the first cell created with the key "toString" | only a key registered by an earlier cell is refused | not executed; follows from JavaScript property lookup | Utils.InheritedKeyRefusedAsWritten | Utils.KeyRegistry.CheckKey |
