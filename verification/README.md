# EventsRegistry: a Dafny model of the event-subscription façade

This project models the event-subscription façade of react-native-navigation.
`EventsRegistry` is built from three collaborators: the native events receiver
(the upstream push source), the in-process `CommandsObserver`, and the
screen-events helper. It exposes six operations:

- `registerAppLaunchedListener`, `registerComponentLifecycleListener`,
  `registerCommandCompletedListener` and `registerNativeEventListener` forward
  to the receiver. Each forwards once and returns the receiver's handle
  unchanged.
- `registerCommandListener` stores the listener in the commands observer.
- `bindScreen` delegates to the screen-events helper and returns its result.

The behaviour modelled is the behaviour that `lib/src/events/EventsRegistry.test.tsx`
asserts.

Everything is pure:

- `Events` (events.dfy): the payloads as a closed datatype (`AppLaunched`,
  `ComponentLifecycle`, `CommandCompleted`, `Native`). Parameters are JSON-like
  values. Callbacks are identities. An `Invocation` records one callback call
  with its arguments: either one raw event object, or the two arguments
  `(name, params)`.
- `CommandsObserver` (commands_observer.dfy): an ordered list of
  `(id, listener)` entries and a counter for fresh ids. `Register` appends an
  entry and returns a handle naming its id. `Remove` is the handle's
  `remove()`. `Notify` returns the trace of invocations a notify pass makes.
- `NativeEventsReceiver` (native_events_receiver.dfy): the opaque receiver,
  modelled as a log of registrations. Each entry holds the event kind armed,
  the translator installed and the handle returned. The handle the receiver
  yields is an input of each registration, because the receiver decides it.
  A translator is either the callback itself (`Direct`) or the wrapper that
  unpacks `{name, params}` (`Unpack`). `Deliver` models the push source firing
  one logged translator with a payload of that registration's kind.
- `EventsRegistry` (events_registry.dfy): the façade over the three
  collaborators. The screen-events helper is modelled like the receiver: a log
  of its `bindScreen` calls, each with the component passed and the handle the
  helper yielded. That handle is an input of `BindScreen`.

## Model

| member | source | states |
|---|---|---|
| Events.ParseType | lib/src/events/EventsRegistry.test.tsx:39-40 | a parsed `type` string gives a lifecycle type whose string value is that same string |
| Events.TypeNameRoundTrip | lib/src/events/EventsRegistry.test.tsx:39-40 | a lifecycle type and its string value are interchangeable: parsing the string gives the type exactly when the type's string value is that string (`LifecycleEventType.ComponentDidAppear` is the string `'ComponentDidAppear'`) |
| Events.CallsTo | lib/src/events/EventsRegistry.test.tsx:57 | the call count of a callback is at most the trace length, and it is zero exactly when no invocation in the trace reaches that callback (`not.toHaveBeenCalled`) |
| CommandsObserver.New | lib/src/events/EventsRegistry.test.tsx:13 | a newly constructed observer is well formed and has no listeners |
| CommandsObserver.Register | lib/src/events/EventsRegistry.test.tsx:45-46 | registration appends one entry for the listener behind the existing ones; on a well-formed observer the handle's id was not in use before, is in use after, and well-formedness is kept |
| CommandsObserver.Without | lib/src/events/EventsRegistry.test.tsx:55 | the entries kept after removal are exactly the earlier entries whose id differs from the removed one, and there are no more of them than before |
| CommandsObserver.Remove | lib/src/events/EventsRegistry.test.tsx:55 | `remove()` takes the handle's id out of use, keeps only entries that were there before, and keeps the observer well formed |
| CommandsObserver.Notify | lib/src/events/EventsRegistry.test.tsx:47-49 | a notify pass makes one invocation per registered entry, reaching that entry's listener with the two arguments `(name, params)` |
| CommandsObserver.CallsMatchRegistrations | lib/src/events/EventsRegistry.test.tsx:47-48 | a notify pass calls each listener exactly as many times as it is registered |
| CommandsObserver.RegisterThenNotify | lib/src/events/EventsRegistry.test.tsx:45-49 | after a registration, every notify pass makes the earlier calls plus exactly one more call of the new listener with `(name, params)` |
| CommandsObserver.RemoveUndoesRegister | lib/src/events/EventsRegistry.test.tsx:54-55 | on a well-formed observer, `remove()` on the handle a registration returned restores the listener list that was there before it |
| CommandsObserver.RemoveThenNotify | lib/src/events/EventsRegistry.test.tsx:54-57 | after registering and removing, a notify pass makes exactly the calls it made before the registration |
| CommandsObserver.RemoveDetachesOnlyItsEntry | lib/src/events/EventsRegistry.test.tsx:55 | with distinct ids, `remove()` on the handle of entry k drops that entry and keeps every other entry in order |
| NativeEventsReceiver.KindOf | lib/src/events/EventsRegistry.test.tsx:84 | each payload case maps to its own kind and no other: native kind exactly for a `{name, params}` envelope, app-launched kind exactly for the app-launched marker, lifecycle kind exactly for a lifecycle event, command-completed kind exactly for a command-completed event |
| NativeEventsReceiver.Fire | lib/src/events/EventsRegistry.test.tsx:84-85 | an installed translator always calls the callback it was installed for |
| NativeEventsReceiver.FireLosesNothing | lib/src/events/EventsRegistry.test.tsx:84-85 | translation only reshapes: the raw payload is recovered exactly from the arguments passed, and the two-argument shape is used exactly when the translator unpacks |
| NativeEventsReceiver.Register | lib/src/events/EventsRegistry.test.tsx:20-25 | a receiver registration arms the push source once more for its own kind only, keeps the earlier log, records the translator, and returns the handle the source yielded |
| NativeEventsReceiver.Deliver | lib/src/events/EventsRegistry.test.tsx:39 | firing a logged translator with a payload of its kind calls that registration's callback with arguments from which the payload is recovered exactly |
| EventsRegistry.New | lib/src/events/EventsRegistry.test.tsx:12-15 | a registry built over a receiver and screen helper gets a fresh observer with no listeners, keeps both collaborators as given, and is well formed when the receiver is |
| EventsRegistry.Forward | lib/src/events/EventsRegistry.test.tsx:22-25 | a forwarded registration adds exactly one receiver registration, of the given kind and translator, returns the receiver's handle, and leaves the observer and screen helper alone |
| EventsRegistry.RegisterAppLaunchedListener | lib/src/events/EventsRegistry.test.tsx:17-27 | the receiver's app-launched registration is called exactly once, with the callback itself, and its handle is returned unchanged; earlier registrations, the observer and the screen helper are unchanged |
| EventsRegistry.RegisterComponentLifecycleListener | lib/src/events/EventsRegistry.test.tsx:29-41 | exactly one lifecycle registration with the receiver, its handle returned unchanged; earlier registrations, the observer and the screen helper are unchanged, and the installed function passes every lifecycle event to the callback as it arrived |
| EventsRegistry.RegisterCommandListener | lib/src/events/EventsRegistry.test.tsx:43-46 | the listener is appended to the commands observer, the receiver is not called, and the handle returned names the new registration and no earlier one |
| EventsRegistry.RegisterCommandCompletedListener | lib/src/events/EventsRegistry.test.tsx:60-72 | exactly one command-completed registration with the receiver, its handle returned unchanged; earlier registrations, the observer and the screen helper are unchanged, and the installed function passes every `{commandId, completionTime, params}` event to the callback as it arrived |
| EventsRegistry.RegisterNativeEventListener | lib/src/events/EventsRegistry.test.tsx:74-86 | exactly one native-event registration with the receiver, its handle returned unchanged; earlier registrations, the observer and the screen helper are unchanged, and the installed function turns `{name: N, params: X}` into the call `(N, X)` |
| EventsRegistry.BindScreen | lib/src/events/EventsRegistry.test.tsx:88-93 | `bindScreen(c)` calls the screen-events helper's `bindScreen` exactly once, with `c`, keeps the helper's earlier calls, returns the handle the helper yielded for that call unchanged, and leaves the receiver and observer alone |
| EventsRegistry.LifecycleFieldsUnchanged | lib/src/events/EventsRegistry.test.tsx:39-40 | corollary of the lifecycle registration's contract, field by field: a lifecycle event reaches the listener with `type` (and so its string value), `componentId` and `componentName` unchanged |
| EventsRegistry.NotListeningNotCalled | lib/src/events/EventsRegistry.test.tsx:56-57 | corollary of `Notify` and `CallsTo`: a callback with no entry in the observer is called zero times by a notify pass |
| EventsRegistry.CommandListenerNotifiedOnce | lib/src/events/EventsRegistry.test.tsx:43-50 | a listener that was not yet registered, once registered through the façade, is called exactly once by a notify pass, with `(name, params)` |
| EventsRegistry.RemovedCommandListenerNotNotified | lib/src/events/EventsRegistry.test.tsx:52-58 | a listener registered through the façade and then removed through its handle is not called by a later notify pass |
| EventsRegistry.CommandListenerScenario | lib/src/events/EventsRegistry.test.tsx:43-58 | register, notify, remove, notify again: the listener is called exactly once over both passes |

## Left out

- Test-framework mechanics (mock functions, queued return values, recorded
  calls) are not modelled. The receiver is a registration log instead. The
  handle it yields is an input of each registration. "Called with" is a field
  of the logged registration.
- The receiver's own handles are opaque. Their `remove()` belongs to the push
  source and is not modelled. Only command handles have a modelled `remove()`.
- The push source's internal table and its fan-out to several registrations of
  one kind are not modelled. `Deliver` fires one logged translator, as the
  tests do with the first recorded call.
- The screen-events helper's internals are not modelled. It is a log of the
  `bindScreen` calls it received, and the handle it returns is an input. React
  component types become an opaque identity (`ComponentRef`).
- The file that defines `LifecycleEventType` is not part of this model. The
  model has four cases: appear, disappear, mount and unmount. Each case's
  string value is its own name. The tests only attest `ComponentDidAppear`.
- Numbers in payloads (`completionTime`, JSON numbers) are integers. Floating
  point is not modelled.
- Registration failures are not modelled: the tests show none. A failure of
  the upstream source would propagate to the caller.
- Snapshot semantics are not modelled. `Notify` is a pure function of the
  state, so listeners cannot change during a pass.
- A listener that throws is not modelled. Invocations are records, not
  executions.
- CommandsObserver.Notify: the trace lists listeners in registration order.
  This is a modelling choice. The tests register only one listener and assert
  no order among several.
- CommandsObserver.Remove: calling `remove()` twice is not stated as a
  property. Nor is it stated that one callback registered twice gets two
  independent handles. The tests assert neither. The model's `Remove` of an
  id no longer in use leaves the list as it is (`WithoutAbsent`), but no
  contract relies on that for double removal.
- CommandsObserver.RemoveDetachesOnlyItsEntry: "other listeners are kept"
  goes beyond the tests, which register one listener. It is stated here
  because a handle names one registration.
- Receiver handles are returned as the receiver yields them: the test asserts
  identity with `toBe`. Wrapping them for idempotent removal is not modelled.
