/** The upstream push source, seen only at its registration interface.

    Each `registerXListener` of the receiver arms the push source for one event
    kind with an upstream-facing function (a translator) and returns whatever
    handle the source yields. The receiver is opaque, so its state is modelled
    as the log of registrations it has been asked to make, and the handle it
    yields is an input of each registration. */
module NativeEventsReceiver {
  import opened Events

  datatype EventKind = AppLaunchedKind | ComponentLifecycleKind | CommandCompletedKind | NativeEventKind

  /** The kind of event a raw payload belongs to. */
  function KindOf(p: Payload): (k: EventKind)
    ensures k == NativeEventKind <==> p.Native?
    ensures k == AppLaunchedKind <==> p == AppLaunched
    ensures k == ComponentLifecycleKind <==> p.ComponentLifecycle?
    ensures k == CommandCompletedKind <==> p.CommandCompleted?
  {
    match p
    case AppLaunched => AppLaunchedKind
    case ComponentLifecycle(_) => ComponentLifecycleKind
    case CommandCompleted(_) => CommandCompletedKind
    case Native(_) => NativeEventKind
  }

  /** The function installed with the push source on behalf of callback `cb`:
      either `cb` itself, which receives the raw payload, or a wrapper that
      unpacks a `{name, params}` envelope into the two arguments of `cb`. */
  datatype Translator = Direct(cb: Callback) | Unpack(cb: Callback)

  /** The payloads a translator can take: the unpacking wrapper needs the
      `{name, params}` envelope of a generic native event. */
  predicate Accepts(t: Translator, p: Payload)
  {
    t.Unpack? ==> p.Native?
  }

  /** The callback invocation a translator makes when the push source fires it. */
  function Fire(t: Translator, p: Payload): (inv: Invocation)
    requires Accepts(t, p)
    ensures inv.callback == t.cb
  {
    match t
    case Direct(cb) => Invocation(cb, Raw(p))
    case Unpack(cb) => Invocation(cb, NameAndParams(p.native.name, p.native.params))
  }

  /** Reassembles the payload the callback's arguments came from: one event
      object is its own payload; `(name, params)` is a native envelope. */
  function Repack(a: Args): Payload
  {
    match a
    case Raw(p) => p
    case NameAndParams(name, params) => Native(NativeEvent(name, params))
  }

  /** Translation only reshapes: from the arguments a translator passes, the
      raw payload it was fired with is recovered exactly, and the two-argument
      shape is used exactly when the translator unpacks. */
  lemma FireLosesNothing(t: Translator, p: Payload)
    requires Accepts(t, p)
    ensures Repack(Fire(t, p).args) == p
    ensures Fire(t, p).args.NameAndParams? <==> t.Unpack?
  {
  }

  /** An upstream handle, known only by its identity. */
  datatype Subscription = Subscription(token: nat)

  /** One call the receiver received: the kind armed, the function installed
      and the handle returned. */
  datatype Registration = Registration(kind: EventKind, translator: Translator, handle: Subscription)

  datatype Receiver = Receiver(log: seq<Registration>)

  /** Every unpacking translator was installed for generic native events, so the
      push source only ever fires it with a `{name, params}` envelope. */
  ghost predicate WellTyped(r: Receiver)
  {
    forall i :: 0 <= i < |r.log| && r.log[i].translator.Unpack? ==> r.log[i].kind == NativeEventKind
  }

  /** How many registrations of kind `kind` the log holds. */
  function RegistrationsOf(log: seq<Registration>, kind: EventKind): nat
  {
    if log == [] then 0
    else (if log[0].kind == kind then 1 else 0) + RegistrationsOf(log[1..], kind)
  }

  lemma {:induction false} RegistrationsOfAppend(a: seq<Registration>, b: seq<Registration>, kind: EventKind)
    ensures RegistrationsOf(a + b, kind) == RegistrationsOf(a, kind) + RegistrationsOf(b, kind)
  {
    if a == [] {
      assert a + b == b;
    } else {
      assert (a + b)[1..] == a[1..] + b;
      RegistrationsOfAppend(a[1..], b, kind);
    }
  }

  /** `registerXListener` on the receiver for kind `kind`: the push source is
      armed once more for that kind and no other, and the call returns the
      handle the source yielded (`issued`). */
  function Register(r: Receiver, kind: EventKind, t: Translator, issued: Subscription): (res: (Receiver, Subscription))
    ensures |res.0.log| == |r.log| + 1 && res.0.log[..|r.log|] == r.log
    ensures res.0.log[|r.log|] == Registration(kind, t, res.1)
    ensures res.1 == issued
    ensures forall k :: RegistrationsOf(res.0.log, k) == RegistrationsOf(r.log, k) + (if k == kind then 1 else 0)
    ensures WellTyped(r) && (t.Unpack? ==> kind == NativeEventKind) ==> WellTyped(res.0)
  {
    var added := [Registration(kind, t, issued)];
    forall k
      ensures RegistrationsOf(r.log + added, k) == RegistrationsOf(r.log, k) + (if k == kind then 1 else 0)
    {
      RegistrationsOfAppend(r.log, added, k);
      assert added[1..] == [];
    }
    assert (r.log + added)[..|r.log|] == r.log;
    (Receiver(r.log + added), issued)
  }

  /** The push source firing the function of registration `i` with a payload of
      the kind that registration armed. */
  function Deliver(r: Receiver, i: nat, p: Payload): (inv: Invocation)
    requires WellTyped(r)
    requires i < |r.log| && KindOf(p) == r.log[i].kind
    ensures inv.callback == r.log[i].translator.cb
    ensures Repack(inv.args) == p
  {
    FireLosesNothing(r.log[i].translator, p);
    Fire(r.log[i].translator, p)
  }
}
