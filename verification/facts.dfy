/** The reactive fact store: a map from fact name to a value cell whose
    listeners are notified, in a fixed order and each in isolation, when the
    value changes. Listener bodies are opaque: a listener is an identity plus
    a flag saying whether its body raises, and notification returns the trace
    of calls made. */
module Facts {
  import opened Basics
  import opened Values

  datatype Listener = Listener(id: nat, raises: bool)

  /** The three listener lists of a fact. */
  datatype ListenerKind = NoArgs | NewValue | OldNew

  /** One listener call: the listener, the arguments it was given and the
      value the fact held while it ran. A call whose listener raises is
      logged and swallowed; the trace records it all the same. */
  datatype Call = Call(listener: Listener, kind: ListenerKind, args: seq<Value>, sees: Value) {
    predicate Failed() {
      listener.raises
    }
  }

  datatype Fact = Fact(value: Value, noArgs: seq<Listener>, newValue: seq<Listener>, oldNew: seq<Listener>) {
    function Listeners(kind: ListenerKind): seq<Listener> {
      match kind
      case NoArgs => noArgs
      case NewValue => newValue
      case OldNew => oldNew
    }
  }

  /** `Fact(initial_value)`: a cell with no listeners. */
  function NewFact(initial: Value): Fact {
    Fact(initial, [], [], [])
  }

  /** The calls of one listener group, in registration order. */
  function GroupCalls(ls: seq<Listener>, kind: ListenerKind, args: seq<Value>, sees: Value): (r: seq<Call>)
    ensures |r| == |ls|
    ensures forall i :: 0 <= i < |r| ==> r[i] == Call(ls[i], kind, args, sees)
  {
    if ls == [] then [] else [Call(ls[0], kind, args, sees)] + GroupCalls(ls[1..], kind, args, sees)
  }

  /** `__invoke_callbacks__`, run after the new value has been stored. */
  function Notify(f: Fact, before: Value, after: Value): seq<Call> {
    GroupCalls(f.noArgs, NoArgs, [], after)
    + GroupCalls(f.newValue, NewValue, [after], after)
    + GroupCalls(f.oldNew, OldNew, [before, after], after)
  }

  /** `Fact.set`: a value equal (in Python's sense) to the current one changes
      nothing and notifies nobody; otherwise the value is stored and every
      listener is called. */
  function Set(f: Fact, v: Value): (r: (Fact, seq<Call>))
    ensures PyEq(v, f.value) ==> r.0 == f && r.1 == []
    ensures !PyEq(v, f.value) ==> r.0.value == v
    ensures r.0.noArgs == f.noArgs && r.0.newValue == f.newValue && r.0.oldNew == f.oldNew
    ensures !PyEq(v, f.value) ==> |r.1| == |f.noArgs| + |f.newValue| + |f.oldNew|
    ensures forall i :: 0 <= i < |r.1| ==> r.1[i].sees == v
  {
    if PyEq(v, f.value) then (f, [])
    else
      var g := f.(value := v);
      (g, Notify(f, f.value, v))
  }

  /** The listeners a trace called from one group, in call order. */
  function CalledFrom(calls: seq<Call>, kind: ListenerKind): seq<Listener> {
    if calls == [] then []
    else (if calls[0].kind == kind then [calls[0].listener] else []) + CalledFrom(calls[1..], kind)
  }

  function KindRank(k: ListenerKind): nat {
    match k
    case NoArgs => 0
    case NewValue => 1
    case OldNew => 2
  }

  /** Every no-argument call precedes every new-value call, which precedes
      every old/new call. */
  predicate GroupsInOrder(calls: seq<Call>) {
    forall i, j :: 0 <= i < j < |calls| ==> KindRank(calls[i].kind) <= KindRank(calls[j].kind)
  }

  lemma CalledFromCons(c: Call, rest: seq<Call>, kind: ListenerKind)
    ensures CalledFrom([c] + rest, kind) == (if c.kind == kind then [c.listener] else []) + CalledFrom(rest, kind)
  {
    assert ([c] + rest)[1..] == rest;
  }

  lemma {:induction false} CalledFromAppend(a: seq<Call>, b: seq<Call>, kind: ListenerKind)
    ensures CalledFrom(a + b, kind) == CalledFrom(a, kind) + CalledFrom(b, kind)
  {
    if a == [] {
      assert a + b == b;
    } else {
      assert a + b == [a[0]] + (a[1..] + b);
      assert a == [a[0]] + a[1..];
      CalledFromCons(a[0], a[1..] + b, kind);
      CalledFromCons(a[0], a[1..], kind);
      CalledFromAppend(a[1..], b, kind);
    }
  }

  lemma {:induction false} CalledFromGroup(ls: seq<Listener>, k: ListenerKind, args: seq<Value>, sees: Value, kind: ListenerKind)
    ensures CalledFrom(GroupCalls(ls, k, args, sees), kind) == if k == kind then ls else []
  {
    if ls != [] {
      var rest := GroupCalls(ls[1..], k, args, sees);
      assert GroupCalls(ls, k, args, sees) == [Call(ls[0], k, args, sees)] + rest;
      CalledFromCons(Call(ls[0], k, args, sees), rest, kind);
      CalledFromGroup(ls[1..], k, args, sees, kind);
      if k == kind {
        assert ls == [ls[0]] + ls[1..];
      }
    }
  }

  lemma {:induction false} GroupCallsShape(ls: seq<Listener>, k: ListenerKind, args: seq<Value>, sees: Value)
    ensures forall x :: x in GroupCalls(ls, k, args, sees) ==> x.kind == k && x.args == args
  {
    var g := GroupCalls(ls, k, args, sees);
    forall x | x in g
      ensures x.kind == k && x.args == args
    {
      var i :| 0 <= i < |g| && g[i] == x;
    }
  }

  lemma {:induction false} GroupCallsInOrder(a: seq<Call>, b: seq<Call>, c: seq<Call>)
    requires forall x :: x in a ==> x.kind == NoArgs
    requires forall x :: x in b ==> x.kind == NewValue
    requires forall x :: x in c ==> x.kind == OldNew
    ensures GroupsInOrder(a + b + c)
  {
    var t := a + b + c;
    forall i, j | 0 <= i < j < |t|
      ensures KindRank(t[i].kind) <= KindRank(t[j].kind)
    {
      if i < |a| {
        assert t[i] in a;
      } else if i < |a| + |b| {
        assert t[i] in b;
        if j < |a| + |b| {
          assert t[j] in b;
        } else {
          assert t[j] == c[j - |a| - |b|];
          assert t[j] in c;
        }
      } else {
        assert t[i] == c[i - |a| - |b|] && t[j] == c[j - |a| - |b|];
        assert t[i] in c && t[j] in c;
      }
    }
  }

  /** On a change, the calls made are exactly the registered listeners of
      each group in registration order (a raising listener does not stop the
      ones after it), the groups run no-argument first, then new-value, then
      old/new, new-value listeners receive the new value, old/new listeners
      the old and the new value, and the cell already holds the new value
      while they run. */
  lemma NotificationOrder(f: Fact, v: Value)
    requires !PyEq(v, f.value)
    ensures forall kind :: CalledFrom(Set(f, v).1, kind) == f.Listeners(kind)
    ensures GroupsInOrder(Set(f, v).1)
    ensures forall c :: c in Set(f, v).1 && c.kind == NewValue ==> c.args == [v]
    ensures forall c :: c in Set(f, v).1 && c.kind == OldNew ==> c.args == [f.value, v]
    ensures forall c :: c in Set(f, v).1 ==> c.sees == Set(f, v).0.value
  {
    var a := GroupCalls(f.noArgs, NoArgs, [], v);
    var b := GroupCalls(f.newValue, NewValue, [v], v);
    var c := GroupCalls(f.oldNew, OldNew, [f.value, v], v);
    var t := Set(f, v).1;
    assert t == a + b + c;
    NotifiedListeners(a, b, c, f, v);
    GroupCallsShape(f.noArgs, NoArgs, [], v);
    GroupCallsShape(f.newValue, NewValue, [v], v);
    GroupCallsShape(f.oldNew, OldNew, [f.value, v], v);
    GroupCallsInOrder(a, b, c);
    NotifiedArgs(a, b, c, f.value, v);
  }

  lemma NotifiedListeners(a: seq<Call>, b: seq<Call>, c: seq<Call>, f: Fact, v: Value)
    requires a == GroupCalls(f.noArgs, NoArgs, [], v)
    requires b == GroupCalls(f.newValue, NewValue, [v], v)
    requires c == GroupCalls(f.oldNew, OldNew, [f.value, v], v)
    ensures forall kind :: CalledFrom(a + b + c, kind) == f.Listeners(kind)
  {
    forall kind
      ensures CalledFrom(a + b + c, kind) == f.Listeners(kind)
    {
      CalledFromAppend(a + b, c, kind);
      CalledFromAppend(a, b, kind);
      CalledFromGroup(f.noArgs, NoArgs, [], v, kind);
      CalledFromGroup(f.newValue, NewValue, [v], v, kind);
      CalledFromGroup(f.oldNew, OldNew, [f.value, v], v, kind);
    }
  }

  lemma NotifiedArgs(a: seq<Call>, b: seq<Call>, c: seq<Call>, old0: Value, v: Value)
    requires forall x :: x in a ==> x.kind == NoArgs
    requires forall x :: x in b ==> x.kind == NewValue && x.args == [v]
    requires forall x :: x in c ==> x.kind == OldNew && x.args == [old0, v]
    ensures forall x :: x in a + b + c && x.kind == NewValue ==> x.args == [v]
    ensures forall x :: x in a + b + c && x.kind == OldNew ==> x.args == [old0, v]
  {
  }

  /** `add_callback_*`: appends, duplicates included. */
  function AddListener(f: Fact, kind: ListenerKind, l: Listener): (r: Fact)
    ensures r.value == f.value
    ensures r.Listeners(kind) == f.Listeners(kind) + [l]
    ensures forall k :: k != kind ==> r.Listeners(k) == f.Listeners(k)
  {
    match kind
    case NoArgs => f.(noArgs := f.noArgs + [l])
    case NewValue => f.(newValue := f.newValue + [l])
    case OldNew => f.(oldNew := f.oldNew + [l])
  }

  /** Position of the first occurrence of `x` in `s`. */
  function IndexOf<T(==)>(s: seq<T>, x: T): (i: nat)
    requires x in s
    ensures i < |s| && s[i] == x && x !in s[..i]
  {
    if s[0] == x then 0
    else
      var j := IndexOf(s[1..], x);
      assert s[..j + 1] == [s[0]] + s[1..][..j];
      j + 1
  }

  /** Python's `list.remove(x)`: drops the first occurrence; `None` stands
      for the `ValueError` raised when `x` is absent. */
  function RemoveFirst<T(==)>(s: seq<T>, x: T): (r: Option<seq<T>>)
    ensures r.None? <==> x !in s
    ensures r.Some? ==> r.value == s[..IndexOf(s, x)] + s[IndexOf(s, x) + 1..]
    ensures r.Some? ==> |r.value| == |s| - 1
    ensures r.Some? ==> multiset(r.value) == multiset(s) - multiset{x}
  {
    if x !in s then None
    else
      var i := IndexOf(s, x);
      assert s == s[..i] + [x] + s[i + 1..];
      Some(s[..i] + s[i + 1..])
  }

  /** `remove_callback_*`: removes the first registration of `l`; `None`
      stands for the `ValueError` raised when it is not registered. */
  function RemoveListener(f: Fact, kind: ListenerKind, l: Listener): (r: Option<Fact>)
    ensures r.None? <==> l !in f.Listeners(kind)
    ensures r.Some? ==> r.value.value == f.value
    ensures r.Some? ==> multiset(r.value.Listeners(kind)) == multiset(f.Listeners(kind)) - multiset{l}
    ensures r.Some? ==> forall k :: k != kind ==> r.value.Listeners(k) == f.Listeners(k)
    ensures r.Some? ==> r.value.Listeners(kind) == RemoveFirst(f.Listeners(kind), l).value
  {
    match RemoveFirst(f.Listeners(kind), l)
    case None => None
    case Some(ls) => Some(WithListeners(f, kind, ls))
  }

  /** The fact with the listener list of one kind replaced. */
  function WithListeners(f: Fact, kind: ListenerKind, ls: seq<Listener>): (r: Fact)
    ensures r.value == f.value && r.Listeners(kind) == ls
    ensures forall k :: k != kind ==> r.Listeners(k) == f.Listeners(k)
  {
    match kind
    case NoArgs => f.(noArgs := ls)
    case NewValue => f.(newValue := ls)
    case OldNew => f.(oldNew := ls)
  }

  /** Adding a listener and removing it again restores the fact exactly when
      that listener was not registered before; otherwise the older copy is the
      one removed, and the new one stays at the end. */
  lemma {:induction false} AddThenRemove(f: Fact, kind: ListenerKind, l: Listener)
    ensures l !in f.Listeners(kind) ==> RemoveListener(AddListener(f, kind, l), kind, l) == Some(f)
    ensures RemoveListener(AddListener(f, kind, l), kind, l).Some?
    ensures l in f.Listeners(kind) ==>
              RemoveListener(AddListener(f, kind, l), kind, l).value.Listeners(kind)
                == RemoveFirst(f.Listeners(kind), l).value + [l]
  {
    var g := AddListener(f, kind, l);
    assert g.Listeners(kind)[|f.Listeners(kind)|] == l;
    if l in f.Listeners(kind) {
      RemoveEarlierCopy(f.Listeners(kind), l);
    } else {
      RemoveLastAppended(f.Listeners(kind), l);
      match kind {
        case NoArgs =>
        case NewValue =>
        case OldNew =>
      }
    }
  }

  /** With an earlier copy present, removing from an extended list removes
      that copy. */
  lemma RemoveEarlierCopy<T>(s: seq<T>, x: T)
    requires x in s
    ensures RemoveFirst(s + [x], x) == Some(RemoveFirst(s, x).value + [x])
  {
    var t := s + [x];
    var i := IndexOf(s, x);
    assert x in t;
    IndexOfPrefix(s, [x], x);
    assert t[..i] == s[..i];
    assert t[i + 1..] == s[i + 1..] + [x];
    assert t[..i] + t[i + 1..] == (s[..i] + s[i + 1..]) + [x];
  }

  lemma {:induction false} IndexOfPrefix<T>(s: seq<T>, u: seq<T>, x: T)
    requires x in s
    ensures IndexOf(s + u, x) == IndexOf(s, x)
  {
    if s[0] != x {
      assert (s + u)[1..] == s[1..] + u;
      IndexOfPrefix(s[1..], u, x);
    }
  }

  lemma {:induction false} RemoveLastAppended<T>(s: seq<T>, x: T)
    requires x !in s
    ensures RemoveFirst(s + [x], x) == Some(s)
  {
    var t := s + [x];
    assert x in t;
    var i := IndexOf(t, x);
    assert i == |s|;
    assert t[..i] == s;
    assert t[i + 1..] == [];
    assert s + [] == s;
  }

  /** The store: one fact per name. */
  type FactStore = map<string, Fact>

  /** The value a name reads as: the stored value, or `None` for a name that
      has never been seen. */
  function ValueOf(store: FactStore, name: string): Value {
    if name in store then store[name].value else Null
  }

  /** Two stores that read the same everywhere. */
  ghost predicate SameValues(a: FactStore, b: FactStore) {
    forall name :: ValueOf(a, name) == ValueOf(b, name)
  }

  /** What a read does to the store: an unseen name gets an empty fact. */
  function Register(store: FactStore, name: string): (r: FactStore)
    ensures SameValues(store, r)
    ensures name in r && r.Keys == store.Keys + {name}
    ensures forall k :: k in store ==> r[k] == store[k]
  {
    if name in store then store else store[name := NewFact(Null)]
  }

  /** `set_fact`: an unseen name is created holding the value and nobody is
      notified; a known name delegates to `Fact.set`. Other names never
      change. */
  function SetFact(store: FactStore, name: string, v: Value): (r: (FactStore, seq<Call>))
    ensures name in r.0 && r.0.Keys == store.Keys + {name}
    ensures forall k :: k in store && k != name ==> r.0[k] == store[k]
    ensures name !in store ==> r.0[name] == NewFact(v) && r.1 == []
    ensures name in store && PyEq(v, store[name].value) ==> r.0 == store && r.1 == []
    ensures name in store && !PyEq(v, store[name].value) ==> ValueOf(r.0, name) == v
    ensures name in store ==> r.1 == Set(store[name], v).1
  {
    if name !in store then (store[name := NewFact(v)], [])
    else
      var (f, calls) := Set(store[name], v);
      (store[name := f], calls)
  }

  /** What `get_fact` hands back. As written it returns the `Fact` object
      only for an unseen name, and the bare stored value for a known one. */
  datatype FactHandle = FactObject(fact: Fact) | RawValue(value: Value)

  /** `get_fact`, as written: registers an unseen name and returns its new
      empty fact; for a known name returns the stored value itself. */
  function GetFact(store: FactStore, name: string): (r: (FactStore, FactHandle))
    ensures r.0 == Register(store, name)
    ensures name in store <==> r.1.RawValue?
    ensures r.1.RawValue? ==> r.1.value == store[name].value
    ensures r.1.FactObject? ==> r.1.fact == NewFact(Null)
  {
    if name in store then (store, RawValue(store[name].value))
    else
      var f := NewFact(Null);
      (store[name := f], FactObject(f))
  }

  /** `get_fact(name).get()` as its callers evidently intend it: the value of
      the fact, whichever form `get_fact` returned. */
  function ReadFact(store: FactStore, name: string): (r: (FactStore, Value))
    ensures r.1 == ValueOf(store, name)
    ensures r.0 == Register(store, name)
  {
    var (s, h) := GetFact(store, name);
    match h
    case FactObject(f) => (s, f.value)
    case RawValue(v) => (s, v)
  }

  /** `get_fact(name).add_callback_*(l)` as written: works only while the name
      is unseen, because a known name yields a bare value, which has no
      `add_callback_*` attribute. */
  function Subscribe(store: FactStore, name: string, kind: ListenerKind, l: Listener): (r: Result<FactStore>)
    ensures r.Ok? <==> name !in store
    ensures r.Ok? ==> r.value == store[name := AddListener(NewFact(Null), kind, l)]
  {
    match GetFact(store, name).1
    case FactObject(f) => Ok(GetFact(store, name).0[name := AddListener(f, kind, l)])
    case RawValue(_) => Err(AttributeError("add_callback"))
  }

  /** Reading an unseen fact gives `None` and registers it, so a listener
      attached to the fact obtained from that read is notified by a later
      `set_fact` of a different value: exactly that listener, once. */
  lemma LazyRegistrationKeepsListeners(store: FactStore, name: string, l: Listener, v: Value)
    requires name !in store
    requires v != Null
    ensures GetFact(store, name).1 == FactObject(NewFact(Null))
    ensures Subscribe(store, name, NoArgs, l).Ok?
    ensures SetFact(Subscribe(store, name, NoArgs, l).value, name, v).1 == [Call(l, NoArgs, [], v)]
  {
    var s := Subscribe(store, name, NoArgs, l).value;
    assert s[name] == Fact(Null, [l], [], []);
    assert !PyEq(v, Null);
  }
}
