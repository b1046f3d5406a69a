/** The in-process multicast emitter for locally initiated commands.

    The observer keeps an ordered list of `(id, listener)` entries. Each
    registration draws a fresh id, and the handle it returns removes the entry
    with that id. `Notify` is pure: it returns the invocations a notify pass
    makes instead of making them. */
module CommandsObserver {
  import opened Events

  datatype Entry = Entry(id: nat, listener: Callback)

  /** The handle returned by `Register`; its `remove()` is `Remove(o, h)`. */
  datatype CommandHandle = CommandHandle(id: nat)

  datatype Observer = Observer(entries: seq<Entry>, nextId: nat)

  function Ids(entries: seq<Entry>): set<nat>
  {
    set e | e in entries :: e.id
  }

  /** No two entries share an id. */
  ghost predicate Distinct(entries: seq<Entry>)
  {
    forall i, j :: 0 <= i < j < |entries| ==> entries[i].id != entries[j].id
  }

  /** Every id in use was drawn before `nextId`, and ids are never shared, so
      a handle names at most one registration. */
  ghost predicate Valid(o: Observer)
  {
    && (forall e :: e in o.entries ==> e.id < o.nextId)
    && Distinct(o.entries)
  }

  /** A newly constructed observer has no listeners. */
  function New(): (o: Observer)
    ensures Valid(o)
    ensures Ids(o.entries) == {}
  {
    Observer([], 0)
  }

  /** Adds `cb` behind every listener already present and returns the handle
      naming the new entry. */
  function Register(o: Observer, cb: Callback): (r: (Observer, CommandHandle))
    ensures r.0.entries == o.entries + [Entry(r.1.id, cb)]
    ensures Valid(o) ==> Valid(r.0) && r.1.id !in Ids(o.entries)
    ensures r.1.id in Ids(r.0.entries)
  {
    (Observer(o.entries + [Entry(o.nextId, cb)], o.nextId + 1), CommandHandle(o.nextId))
  }

  /** The entries other than those with id `id`, in their original order. */
  function Without(entries: seq<Entry>, id: nat): (r: seq<Entry>)
    ensures forall e :: e in r <==> e in entries && e.id != id
    ensures |r| <= |entries|
  {
    if entries == [] then []
    else if entries[0].id == id then Without(entries[1..], id)
    else [entries[0]] + Without(entries[1..], id)
  }

  /** Removing an id no entry has changes nothing. */
  lemma {:induction false} WithoutAbsent(entries: seq<Entry>, id: nat)
    requires id !in Ids(entries)
    ensures Without(entries, id) == entries
  {
    if entries != [] {
      assert entries[0] in entries;
      assert Ids(entries[1..]) <= Ids(entries);
      WithoutAbsent(entries[1..], id);
      assert [entries[0]] + entries[1..] == entries;
    }
  }

  lemma DistinctCons(e: Entry, s: seq<Entry>)
    requires Distinct(s)
    requires forall x :: x in s ==> x.id != e.id
    ensures Distinct([e] + s)
  {
    var t := [e] + s;
    forall i, j | 0 <= i < j < |t|
      ensures t[i].id != t[j].id
    {
      assert t[j] == s[j - 1];
      if i > 0 {
        assert t[i] == s[i - 1];
      }
    }
  }

  /** Removal keeps ids distinct. */
  lemma {:induction false} WithoutDistinct(entries: seq<Entry>, id: nat)
    requires Distinct(entries)
    ensures Distinct(Without(entries, id))
  {
    if entries != [] {
      DistinctTail(entries);
      WithoutDistinct(entries[1..], id);
      if entries[0].id != id {
        DistinctCons(entries[0], Without(entries[1..], id));
      }
    }
  }

  /** `handle.remove()`: detaches the entry the handle names. */
  function Remove(o: Observer, h: CommandHandle): (r: Observer)
    ensures Ids(r.entries) == Ids(o.entries) - {h.id}
    ensures forall e :: e in r.entries ==> e in o.entries
    ensures Valid(o) ==> Valid(r)
  {
    var kept := Without(o.entries, h.id);
    assert Distinct(o.entries) ==> Distinct(kept) by {
      if Distinct(o.entries) {
        WithoutDistinct(o.entries, h.id);
      }
    }
    Observer(kept, o.nextId)
  }

  function Dispatch(entries: seq<Entry>, name: string, params: Json): (trace: seq<Invocation>)
    ensures |trace| == |entries|
    ensures forall i :: 0 <= i < |trace| ==>
              trace[i] == Invocation(entries[i].listener, NameAndParams(name, params))
  {
    if entries == [] then []
    else [Invocation(entries[0].listener, NameAndParams(name, params))] + Dispatch(entries[1..], name, params)
  }

  /** The invocations `notify(name, params)` makes: every registered listener,
      once per entry, with the two arguments `(name, params)`. */
  function Notify(o: Observer, name: string, params: Json): (trace: seq<Invocation>)
    ensures |trace| == |o.entries|
    ensures forall i :: 0 <= i < |trace| ==>
              trace[i] == Invocation(o.entries[i].listener, NameAndParams(name, params))
  {
    Dispatch(o.entries, name, params)
  }

  /** How many entries of the list belong to `cb`. */
  function Registrations(entries: seq<Entry>, cb: Callback): nat
  {
    if entries == [] then 0
    else (if entries[0].listener == cb then 1 else 0) + Registrations(entries[1..], cb)
  }

  /** A listener is called by a notify pass exactly as many times as it is registered. */
  lemma {:induction false} CallsMatchRegistrations(entries: seq<Entry>, cb: Callback, name: string, params: Json)
    ensures CallsTo(Dispatch(entries, name, params), cb) == Registrations(entries, cb)
  {
    if entries != [] {
      var trace := Dispatch(entries, name, params);
      assert trace[1..] == Dispatch(entries[1..], name, params);
      CallsMatchRegistrations(entries[1..], cb, name, params);
    }
  }

  /** Registering `cb` adds exactly one invocation of `cb`, with `(name, params)`,
      to every later notify pass, and leaves the others' calls as they were. */
  lemma RegisterThenNotify(o: Observer, cb: Callback, name: string, params: Json)
    ensures Notify(Register(o, cb).0, name, params)
         == Notify(o, name, params) + [Invocation(cb, NameAndParams(name, params))]
    ensures CallsTo(Notify(Register(o, cb).0, name, params), cb) == CallsTo(Notify(o, name, params), cb) + 1
  {
    var before := Notify(o, name, params);
    var after := Notify(Register(o, cb).0, name, params);
    var extra := [Invocation(cb, NameAndParams(name, params))];
    assert after == before + extra;
    CallsToAppend(before, extra, cb);
    assert CallsTo(extra, cb) == 1 by {
      assert extra[1..] == [];
    }
  }

  lemma {:induction false} WithoutAppend(a: seq<Entry>, b: seq<Entry>, id: nat)
    ensures Without(a + b, id) == Without(a, id) + Without(b, id)
  {
    if a == [] {
      assert a + b == b;
    } else {
      assert (a + b)[1..] == a[1..] + b;
      WithoutAppend(a[1..], b, id);
    }
  }

  /** Removing through the handle `Register` returned undoes that
      registration: the listener list is what it was before. */
  lemma RemoveUndoesRegister(o: Observer, cb: Callback)
    requires Valid(o)
    ensures Remove(Register(o, cb).0, Register(o, cb).1).entries == o.entries
  {
    var (o1, h) := Register(o, cb);
    WithoutAppend(o.entries, [Entry(h.id, cb)], h.id);
    WithoutAbsent(o.entries, h.id);
    assert Without([Entry(h.id, cb)], h.id) == [];
  }

  /** After `Register` and `remove()` on its handle, a notify pass makes the
      same calls it made before the registration. */
  lemma RemoveThenNotify(o: Observer, cb: Callback, name: string, params: Json)
    requires Valid(o)
    ensures Notify(Remove(Register(o, cb).0, Register(o, cb).1), name, params) == Notify(o, name, params)
  {
    RemoveUndoesRegister(o, cb);
  }

  lemma DistinctTail(entries: seq<Entry>)
    requires Distinct(entries)
    requires entries != []
    ensures Distinct(entries[1..])
    ensures entries[0].id !in Ids(entries[1..])
  {
    forall e | e in entries[1..]
      ensures e.id != entries[0].id
    {
      var j :| 0 <= j < |entries[1..]| && entries[1..][j] == e;
      assert entries[j + 1] == e;
    }
  }

  lemma RemoveHead(entries: seq<Entry>)
    requires entries != []
    requires entries[0].id !in Ids(entries[1..])
    ensures Without(entries, entries[0].id) == entries[..0] + entries[1..]
  {
    WithoutAbsent(entries[1..], entries[0].id);
    assert entries[..0] + entries[1..] == entries[1..];
  }

  /** The step of `RemoveDetachesOnlyItsEntry`: an entry in front of the
      removed one is kept in front of what remains. */
  lemma KeepFront(entries: seq<Entry>, k: nat, id: nat)
    requires 0 < k < |entries|
    requires entries[0].id != id
    requires Without(entries[1..], id) == entries[1..][..k - 1] + entries[1..][k..]
    ensures Without(entries, id) == entries[..k] + entries[k + 1..]
  {
    var tail := entries[1..];
    var front := [entries[0]] + tail[..k - 1];
    assert front == entries[..k];
    assert tail[k..] == entries[k + 1..];
    calc {
      Without(entries, id);
      [entries[0]] + Without(tail, id);
      [entries[0]] + (tail[..k - 1] + tail[k..]);
      front + tail[k..];
    }
  }

  /** `remove()` on the handle of entry `k` detaches that entry and no other:
      the listeners before and after it stay, in their order. */
  lemma {:induction false} RemoveDetachesOnlyItsEntry(entries: seq<Entry>, k: nat)
    requires Distinct(entries)
    requires k < |entries|
    ensures Without(entries, entries[k].id) == entries[..k] + entries[k + 1..]
  {
    DistinctTail(entries);
    if k == 0 {
      RemoveHead(entries);
    } else {
      assert entries[1..][k - 1] == entries[k];
      RemoveDetachesOnlyItsEntry(entries[1..], k - 1);
      KeepFront(entries, k, entries[k].id);
    }
  }
}
