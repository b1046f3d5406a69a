/** The public façade. It composes one native events receiver, one commands
    observer and the screen-binding helper, and routes each `registerXListener`
    to one of them:

    | operation                          | routes to         | reshaping                     |
    |------------------------------------|-------------------|-------------------------------|
    | RegisterAppLaunchedListener        | receiver          | none: `cb` itself             |
    | RegisterComponentLifecycleListener | receiver          | none: raw lifecycle event     |
    | RegisterCommandListener            | commands observer | none                          |
    | RegisterCommandCompletedListener   | receiver          | none: raw completed event     |
    | RegisterNativeEventListener        | receiver          | `{name, params}` to `(name, params)` |
    | BindScreen                         | screen helper     | helper's result verbatim      |
 */
module EventsRegistry {
  import opened Events
  import Obs = CommandsObserver
  import Recv = NativeEventsReceiver

  /** A component instance handed to `bindScreen`, known only by its identity. */
  datatype ComponentRef = ComponentRef(id: nat)

  /** One call of the screen helper's `bindScreen`: the component passed and
      the handle the helper returned. */
  datatype Binding = Binding(component: ComponentRef, handle: Recv.Subscription)

  /** The screen-binding helper, seen only through its `bindScreen`: the log of
      calls it has received. What it returns is its own decision. */
  datatype ScreenEventsRegistry = ScreenEventsRegistry(bindings: seq<Binding>)

  /** The three collaborators the registry is constructed with. */
  datatype Registry = Registry(receiver: Recv.Receiver, observer: Obs.Observer, screens: ScreenEventsRegistry)

  ghost predicate Valid(reg: Registry)
  {
    Recv.WellTyped(reg.receiver) && Obs.Valid(reg.observer)
  }

  /** `new EventsRegistry(receiver, new CommandsObserver(), screens)`: the
      registry over a fresh commands observer. */
  function New(receiver: Recv.Receiver, screens: ScreenEventsRegistry): (reg: Registry)
    ensures reg.receiver == receiver && reg.screens == screens
    ensures reg.observer.entries == []
    ensures Recv.WellTyped(receiver) ==> Valid(reg)
  {
    Registry(receiver, Obs.New(), screens)
  }

  /** Hands one registration to the receiver and returns the receiver's handle;
      the observer and the screen helper are left alone. */
  function Forward(reg: Registry, kind: Recv.EventKind, t: Recv.Translator, issued: Recv.Subscription)
    : (r: (Registry, Recv.Subscription))
    requires t.Unpack? ==> kind == Recv.NativeEventKind
    ensures r.1 == issued
    ensures |r.0.receiver.log| == |reg.receiver.log| + 1
    ensures r.0.receiver.log[..|reg.receiver.log|] == reg.receiver.log
    ensures r.0.receiver.log[|reg.receiver.log|] == Recv.Registration(kind, t, issued)
    ensures forall k :: Recv.RegistrationsOf(r.0.receiver.log, k)
                     == Recv.RegistrationsOf(reg.receiver.log, k) + (if k == kind then 1 else 0)
    ensures r.0.observer == reg.observer && r.0.screens == reg.screens
    ensures Valid(reg) ==> Valid(r.0)
  {
    var (receiver, handle) := Recv.Register(reg.receiver, kind, t, issued);
    (reg.(receiver := receiver), handle)
  }

  /** `registerAppLaunchedListener(cb)`: the receiver's app-launched
      registration is called once, with `cb` itself, and its handle is
      returned unchanged. */
  function RegisterAppLaunchedListener(reg: Registry, cb: Callback, issued: Recv.Subscription)
    : (r: (Registry, Recv.Subscription))
    ensures r.1 == issued
    ensures forall k :: Recv.RegistrationsOf(r.0.receiver.log, k)
                     == Recv.RegistrationsOf(reg.receiver.log, k) + (if k == Recv.AppLaunchedKind then 1 else 0)
    ensures |r.0.receiver.log| == |reg.receiver.log| + 1
    ensures r.0.receiver.log[|reg.receiver.log|].translator == Recv.Direct(cb)
    ensures r.0.receiver.log[|reg.receiver.log|].kind == Recv.AppLaunchedKind
    ensures r.0.receiver.log[|reg.receiver.log|].handle == r.1
    ensures r.0.receiver.log[..|reg.receiver.log|] == reg.receiver.log
    ensures r.0.observer == reg.observer && r.0.screens == reg.screens
    ensures Valid(reg) ==> Valid(r.0)
  {
    Forward(reg, Recv.AppLaunchedKind, Recv.Direct(cb), issued)
  }

  /** `registerComponentLifecycleListener(cb)`: one registration with the
      receiver, its handle returned unchanged, and the installed function hands
      every lifecycle event to `cb` exactly as it arrived. */
  function RegisterComponentLifecycleListener(reg: Registry, cb: Callback, issued: Recv.Subscription)
    : (r: (Registry, Recv.Subscription))
    ensures r.1 == issued
    ensures forall k :: Recv.RegistrationsOf(r.0.receiver.log, k)
                     == Recv.RegistrationsOf(reg.receiver.log, k) + (if k == Recv.ComponentLifecycleKind then 1 else 0)
    ensures |r.0.receiver.log| == |reg.receiver.log| + 1
    ensures r.0.receiver.log[|reg.receiver.log|].kind == Recv.ComponentLifecycleKind
    ensures r.0.receiver.log[|reg.receiver.log|].handle == r.1
    ensures r.0.receiver.log[..|reg.receiver.log|] == reg.receiver.log
    ensures r.0.observer == reg.observer && r.0.screens == reg.screens
    ensures Valid(reg) ==> Valid(r.0)
    ensures Valid(reg) ==>
              forall e :: Recv.Deliver(r.0.receiver, |reg.receiver.log|, ComponentLifecycle(e))
                       == Invocation(cb, Raw(ComponentLifecycle(e)))
  {
    Forward(reg, Recv.ComponentLifecycleKind, Recv.Direct(cb), issued)
  }

  /** `registerCommandListener(cb)`: the listener goes to the commands
      observer, the receiver is not involved, and the handle returned names the
      new registration and no earlier one. */
  function RegisterCommandListener(reg: Registry, cb: Callback): (r: (Registry, Obs.CommandHandle))
    ensures r.0.receiver == reg.receiver && r.0.screens == reg.screens
    ensures r.0.observer.entries == reg.observer.entries + [Obs.Entry(r.1.id, cb)]
    ensures r.1.id in Obs.Ids(r.0.observer.entries)
    ensures Valid(reg) ==> Valid(r.0) && r.1.id !in Obs.Ids(reg.observer.entries)
  {
    var (observer, handle) := Obs.Register(reg.observer, cb);
    (reg.(observer := observer), handle)
  }

  /** `registerCommandCompletedListener(cb)`: one registration with the
      receiver, its handle returned unchanged, and the installed function hands
      every command-completed event to `cb` exactly as it arrived. */
  function RegisterCommandCompletedListener(reg: Registry, cb: Callback, issued: Recv.Subscription)
    : (r: (Registry, Recv.Subscription))
    ensures r.1 == issued
    ensures forall k :: Recv.RegistrationsOf(r.0.receiver.log, k)
                     == Recv.RegistrationsOf(reg.receiver.log, k) + (if k == Recv.CommandCompletedKind then 1 else 0)
    ensures |r.0.receiver.log| == |reg.receiver.log| + 1
    ensures r.0.receiver.log[|reg.receiver.log|].kind == Recv.CommandCompletedKind
    ensures r.0.receiver.log[|reg.receiver.log|].handle == r.1
    ensures r.0.receiver.log[..|reg.receiver.log|] == reg.receiver.log
    ensures r.0.observer == reg.observer && r.0.screens == reg.screens
    ensures Valid(reg) ==> Valid(r.0)
    ensures Valid(reg) ==>
              forall e :: Recv.Deliver(r.0.receiver, |reg.receiver.log|, CommandCompleted(e))
                       == Invocation(cb, Raw(CommandCompleted(e)))
  {
    Forward(reg, Recv.CommandCompletedKind, Recv.Direct(cb), issued)
  }

  /** `registerNativeEventListener(cb)`: one registration with the receiver,
      its handle returned unchanged, and the installed function unpacks each
      `{name, params}` envelope into the two arguments `(name, params)` of `cb`. */
  function RegisterNativeEventListener(reg: Registry, cb: Callback, issued: Recv.Subscription)
    : (r: (Registry, Recv.Subscription))
    ensures r.1 == issued
    ensures forall k :: Recv.RegistrationsOf(r.0.receiver.log, k)
                     == Recv.RegistrationsOf(reg.receiver.log, k) + (if k == Recv.NativeEventKind then 1 else 0)
    ensures |r.0.receiver.log| == |reg.receiver.log| + 1
    ensures r.0.receiver.log[|reg.receiver.log|].kind == Recv.NativeEventKind
    ensures r.0.receiver.log[|reg.receiver.log|].handle == r.1
    ensures r.0.receiver.log[..|reg.receiver.log|] == reg.receiver.log
    ensures r.0.observer == reg.observer && r.0.screens == reg.screens
    ensures Valid(reg) ==> Valid(r.0)
    ensures Valid(reg) ==>
              forall e: NativeEvent :: Recv.Deliver(r.0.receiver, |reg.receiver.log|, Native(e))
                                    == Invocation(cb, NameAndParams(e.name, e.params))
  {
    Forward(reg, Recv.NativeEventKind, Recv.Unpack(cb), issued)
  }

  /** `bindScreen(c)`: the screen helper's `bindScreen` is called once, with
      `c`, and the handle it yields (`issued`) is returned as it is; the
      receiver and the observer are not involved. */
  function BindScreen(reg: Registry, c: ComponentRef, issued: Recv.Subscription): (r: (Registry, Recv.Subscription))
    ensures |r.0.screens.bindings| == |reg.screens.bindings| + 1
    ensures r.0.screens.bindings[..|reg.screens.bindings|] == reg.screens.bindings
    ensures r.0.screens.bindings[|reg.screens.bindings|].component == c
    ensures r.0.screens.bindings[|reg.screens.bindings|].handle == r.1
    ensures r.1 == issued
    ensures r.0.receiver == reg.receiver && r.0.observer == reg.observer
    ensures Valid(reg) ==> Valid(r.0)
  {
    var bindings := reg.screens.bindings + [Binding(c, issued)];
    assert bindings[..|reg.screens.bindings|] == reg.screens.bindings;
    (reg.(screens := ScreenEventsRegistry(bindings)), issued)
  }

  /** Corollary of `RegisterComponentLifecycleListener`, spelled out field by
      field: a lifecycle event reaches the listener with its `type`,
      `componentId` and `componentName` unchanged, so the `type` string the
      listener sees is the one the event was fired with. */
  lemma LifecycleFieldsUnchanged(reg: Registry, cb: Callback, issued: Recv.Subscription, e: LifecycleEvent)
    requires Valid(reg)
    ensures var r := RegisterComponentLifecycleListener(reg, cb, issued);
            var inv := Recv.Deliver(r.0.receiver, |reg.receiver.log|, ComponentLifecycle(e));
            && inv.callback == cb
            && inv.args.Raw? && inv.args.payload.ComponentLifecycle?
            && inv.args.payload.lifecycle.componentId == e.componentId
            && inv.args.payload.lifecycle.componentName == e.componentName
            && inv.args.payload.lifecycle.eventType == e.eventType
            && TypeName(inv.args.payload.lifecycle.eventType) == TypeName(e.eventType)
  {
  }

  /** Corollary of `CommandsObserver.Notify` and `CallsTo`: a callback with no
      entry in the observer is not called by a notify pass. */
  lemma NotListeningNotCalled(o: Obs.Observer, cb: Callback, name: string, params: Json)
    requires forall e :: e in o.entries ==> e.listener != cb
    ensures CallsTo(Obs.Notify(o, name, params), cb) == 0
  {
  }

  /** A listener not yet registered, once registered through the façade, is
      called exactly once by a notify pass, and with `(name, params)`. */
  lemma CommandListenerNotifiedOnce(reg: Registry, cb: Callback, name: string, params: Json)
    requires Valid(reg)
    requires forall e :: e in reg.observer.entries ==> e.listener != cb
    ensures var trace := Obs.Notify(RegisterCommandListener(reg, cb).0.observer, name, params);
            && CallsTo(trace, cb) == 1
            && Invocation(cb, NameAndParams(name, params)) in trace
            && forall i :: 0 <= i < |trace| ==> trace[i].args == NameAndParams(name, params)
  {
    NotListeningNotCalled(reg.observer, cb, name, params);
    Obs.RegisterThenNotify(reg.observer, cb, name, params);
    var trace := Obs.Notify(RegisterCommandListener(reg, cb).0.observer, name, params);
    assert trace[|trace| - 1] == Invocation(cb, NameAndParams(name, params));
  }

  /** A listener not yet registered, registered through the façade and then
      removed through its handle, is not called by a later notify pass. */
  lemma RemovedCommandListenerNotNotified(reg: Registry, cb: Callback, name: string, params: Json)
    requires forall e :: e in reg.observer.entries ==> e.listener != cb
    ensures var r := RegisterCommandListener(reg, cb);
            CallsTo(Obs.Notify(Obs.Remove(r.0.observer, r.1), name, params), cb) == 0
  {
  }

  /** Register, notify, remove, notify again with the same arguments: the
      listener has been called exactly once over both passes. */
  lemma CommandListenerScenario(reg: Registry, cb: Callback, name: string, params: Json)
    requires Valid(reg)
    requires forall e :: e in reg.observer.entries ==> e.listener != cb
    ensures var r := RegisterCommandListener(reg, cb);
            var first := Obs.Notify(r.0.observer, name, params);
            var second := Obs.Notify(Obs.Remove(r.0.observer, r.1), name, params);
            CallsTo(first + second, cb) == 1
  {
    var r := RegisterCommandListener(reg, cb);
    var first := Obs.Notify(r.0.observer, name, params);
    var second := Obs.Notify(Obs.Remove(r.0.observer, r.1), name, params);
    CommandListenerNotifiedOnce(reg, cb, name, params);
    RemovedCommandListenerNotNotified(reg, cb, name, params);
    CallsToAppend(first, second, cb);
  }
}
