/** Event payloads, application callbacks and the invocations a dispatch makes.

    Every event source of the registry (the upstream push source and the
    in-process commands observer) ends up calling application callbacks; this
    module fixes the shape of those calls so that both sources can be stated
    in the same terms. */
module Events {

  datatype Option<+T> = None | Some(value: T)

  /** Arbitrary structured data, as carried in the `params` of commands,
      command-completed events and generic native events. Numbers are
      modelled as integers. */
  datatype Json =
    | JNull
    | JBool(b: bool)
    | JNumber(n: int)
    | JString(s: string)
    | JArray(items: seq<Json>)
    | JObject(fields: seq<(string, Json)>)

  /** The discriminant of a component-lifecycle event. */
  datatype LifecycleEventType =
    | ComponentDidAppear
    | ComponentDidDisappear
    | ComponentDidMount
    | ComponentDidUnmount

  /** The string value each lifecycle type carries in the event's `type` field. */
  function TypeName(t: LifecycleEventType): string
  {
    match t
    case ComponentDidAppear => "ComponentDidAppear"
    case ComponentDidDisappear => "ComponentDidDisappear"
    case ComponentDidMount => "ComponentDidMount"
    case ComponentDidUnmount => "ComponentDidUnmount"
  }

  /** Reads a `type` field back into a lifecycle type; `None` for any other string. */
  function ParseType(s: string): (r: Option<LifecycleEventType>)
    ensures r.Some? ==> TypeName(r.value) == s
  {
    if s == "ComponentDidAppear" then Some(ComponentDidAppear)
    else if s == "ComponentDidDisappear" then Some(ComponentDidDisappear)
    else if s == "ComponentDidMount" then Some(ComponentDidMount)
    else if s == "ComponentDidUnmount" then Some(ComponentDidUnmount)
    else None
  }

  /** A type's string value and the type are interchangeable: parsing is the
      exact inverse of `TypeName`, in both directions. */
  lemma TypeNameRoundTrip(t: LifecycleEventType, s: string)
    ensures ParseType(s) == Some(t) <==> TypeName(t) == s
  {
  }

  datatype LifecycleEvent = LifecycleEvent(eventType: LifecycleEventType, componentId: string, componentName: string)

  datatype CommandCompletedEvent = CommandCompletedEvent(commandId: string, completionTime: int, params: Json)

  /** The envelope of a generic named event as the upstream source delivers it. */
  datatype NativeEvent = NativeEvent(name: string, params: Json)

  /** A raw notification from the upstream push source, one case per event kind.
      `AppLaunched` is the empty marker of the app-launched event. */
  datatype Payload =
    | AppLaunched
    | ComponentLifecycle(lifecycle: LifecycleEvent)
    | CommandCompleted(completed: CommandCompletedEvent)
    | Native(native: NativeEvent)

  /** An application callback, known only by its identity. */
  datatype Callback = Callback(id: nat)

  /** The arguments of one callback invocation: either one event object, or
      the two positional arguments `(name, params)`. */
  datatype Args =
    | Raw(payload: Payload)
    | NameAndParams(name: string, params: Json)

  datatype Invocation = Invocation(callback: Callback, args: Args)

  /** How many invocations of a trace reach `cb`. */
  function CallsTo(trace: seq<Invocation>, cb: Callback): (n: nat)
    ensures n <= |trace|
    ensures n == 0 <==> forall i :: 0 <= i < |trace| ==> trace[i].callback != cb
  {
    if trace == [] then 0
    else (if trace[0].callback == cb then 1 else 0) + CallsTo(trace[1..], cb)
  }

  /** Counting the calls of a concatenated trace adds up the parts. */
  lemma {:induction false} CallsToAppend(a: seq<Invocation>, b: seq<Invocation>, cb: Callback)
    ensures CallsTo(a + b, cb) == CallsTo(a, cb) + CallsTo(b, cb)
  {
    if a == [] {
      assert a + b == b;
    } else {
      assert (a + b)[1..] == a[1..] + b;
      CallsToAppend(a[1..], b, cb);
    }
  }
}
