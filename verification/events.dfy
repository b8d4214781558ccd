/** The named multicast registry. An action is an opaque identity plus a
    flag saying whether its body raises; invoking an event returns the trace
    of actions run. */
module Events {
  import opened Basics
  import Facts

  datatype Action = Action(id: nat, raises: bool)

  type Bus = map<string, seq<Action>>

  /** One action run by `invoke`. A run whose action raises is logged and
      swallowed; the runs after it still happen. */
  datatype Run = Run(event: string, action: Action) {
    predicate Failed() {
      action.raises
    }
  }

  predicate NoDuplicates<T(==)>(s: seq<T>) {
    forall i, j :: 0 <= i < j < |s| ==> s[i] != s[j]
  }

  /** What registration through `add_evt`/`remove_evt` keeps true: no event
      name maps to an empty list, and no list holds an action twice. */
  predicate WellFormed(bus: Bus) {
    forall name :: name in bus ==> |bus[name]| > 0 && NoDuplicates(bus[name])
  }

  /** `add_evt`: creates the list for a new name and appends the action only
      when it is not already registered under that name. */
  function AddEvt(bus: Bus, name: string, a: Action): (r: Bus)
    ensures name in r && a in r[name]
    ensures r.Keys == bus.Keys + {name}
    ensures forall n :: n in bus && n != name ==> r[n] == bus[n]
    ensures name in bus && a in bus[name] ==> r == bus
    ensures !(name in bus && a in bus[name]) ==> r[name] == (if name in bus then bus[name] else []) + [a]
  {
    var current := if name in bus then bus[name] else [];
    if a in current then bus else bus[name := current + [a]]
  }

  /** `remove_evt`: a no-op unless the action is registered under the name;
      otherwise removes it and deletes the name once its list is empty. */
  function RemoveEvt(bus: Bus, name: string, a: Action): (r: Bus)
    ensures forall n :: n != name ==> (n in r <==> n in bus) && (n in r ==> r[n] == bus[n])
    ensures !(name in bus && a in bus[name]) ==> r == bus
    ensures name in bus && a in bus[name] ==>
              (name in r <==> |bus[name]| > 1)
              && (name in r ==> multiset(r[name]) == multiset(bus[name]) - multiset{a})
              && (name in r ==> r[name] == Facts.RemoveFirst(bus[name], a).value)
  {
    if name in bus && a in bus[name] then
      var rest := Facts.RemoveFirst(bus[name], a).value;
      if rest == [] then bus - {name} else bus[name := rest]
    else bus
  }

  /** `invoke`: nothing for `None` or the empty name, nothing for an
      unregistered name, and otherwise every registered action in
      registration order, whether or not earlier ones raise. */
  function Invoke(bus: Bus, name: Option<string>): (r: seq<Run>)
    ensures name.None? || name == Some("") || name.value !in bus ==> r == []
    ensures name.Some? && name.value != "" && name.value in bus ==> |r| == |bus[name.value]|
    ensures forall i :: 0 <= i < |r| ==> r[i] == Run(name.value, bus[name.value][i])
  {
    if name.None? || name.value == "" || name.value !in bus then []
    else
      var actions := bus[name.value];
      seq(|actions|, i requires 0 <= i < |actions| => Run(name.value, actions[i]))
  }

  /** The runs of a sequence of invocations, in order. */
  function Dispatch(bus: Bus, names: seq<Option<string>>): (r: seq<Run>)
    ensures names == [] ==> r == []
  {
    if names == [] then [] else Invoke(bus, names[0]) + Dispatch(bus, names[1..])
  }

  lemma {:induction false} DispatchAppend(bus: Bus, a: seq<Option<string>>, b: seq<Option<string>>)
    ensures Dispatch(bus, a + b) == Dispatch(bus, a) + Dispatch(bus, b)
  {
    if a == [] {
      assert a + b == b;
    } else {
      assert (a + b)[1..] == a[1..] + b;
      DispatchAppend(bus, a[1..], b);
    }
  }

  /** Both registry operations keep the registry well formed. */
  lemma AddEvtPreservesWellFormed(bus: Bus, name: string, a: Action)
    requires WellFormed(bus)
    ensures WellFormed(AddEvt(bus, name, a))
  {
  }

  lemma RemoveEvtPreservesWellFormed(bus: Bus, name: string, a: Action)
    requires WellFormed(bus)
    ensures WellFormed(RemoveEvt(bus, name, a))
  {
    if name in bus && a in bus[name] {
      var rest := Facts.RemoveFirst(bus[name], a).value;
      RemoveKeepsNoDuplicates(bus[name], a);
      var r := RemoveEvt(bus, name, a);
      forall n | n in r
        ensures |r[n]| > 0 && NoDuplicates(r[n])
      {
        if n == name {
          assert r[n] == rest;
        } else {
          assert r[n] == bus[n];
        }
      }
    }
  }

  lemma RemoveKeepsNoDuplicates<T>(s: seq<T>, x: T)
    requires NoDuplicates(s) && x in s
    ensures NoDuplicates(Facts.RemoveFirst(s, x).value)
  {
    var i := Facts.IndexOf(s, x);
    var rest := Facts.RemoveFirst(s, x).value;
    assert rest == s[..i] + s[i + 1..];
    forall p, q | 0 <= p < q < |rest|
      ensures rest[p] != rest[q]
    {
      var p' := if p < i then p else p + 1;
      var q' := if q < i then q else q + 1;
      assert rest[p] == s[p'] && rest[q] == s[q'];
    }
  }

  /** Registering the same action twice under one name keeps one copy. */
  lemma {:induction false} AddEvtIdempotent(bus: Bus, name: string, a: Action)
    ensures AddEvt(AddEvt(bus, name, a), name, a) == AddEvt(bus, name, a)
    ensures |AddEvt(AddEvt(bus, name, a), name, a)[name]| == |AddEvt(bus, name, a)[name]|
  {
  }

  /** Removing an action just registered under a name restores the registry,
      including deleting a name that was created for it. */
  lemma {:induction false} RemoveUndoesAdd(bus: Bus, name: string, a: Action)
    requires WellFormed(bus)
    requires !(name in bus && a in bus[name])
    ensures RemoveEvt(AddEvt(bus, name, a), name, a) == bus
  {
    if name in bus {
      RemoveUndoesAppend(bus, name, a);
    } else {
      RemoveUndoesCreate(bus, name, a);
    }
  }

  lemma {:induction false} RemoveUndoesAppend(bus: Bus, name: string, a: Action)
    requires name in bus && |bus[name]| > 0 && a !in bus[name]
    ensures RemoveEvt(AddEvt(bus, name, a), name, a) == bus
  {
    var current := bus[name];
    var added := bus[name := current + [a]];
    assert AddEvt(bus, name, a) == added;
    Facts.RemoveLastAppended(current, a);
    assert RemoveEvt(added, name, a) == added[name := current];
    assert added[name := current] == bus;
  }

  lemma {:induction false} RemoveUndoesCreate(bus: Bus, name: string, a: Action)
    requires name !in bus
    ensures RemoveEvt(AddEvt(bus, name, a), name, a) == bus
  {
    var added := bus[name := [a]];
    var empty: seq<Action> := [];
    assert empty + [a] == [a];
    assert AddEvt(bus, name, a) == added;
    Facts.RemoveLastAppended(empty, a);
    assert RemoveEvt(added, name, a) == added - {name};
    assert added - {name} == bus;
  }

  /** After a removal, invoking the event runs the other actions in the
      order they ran before: only the run of the removed registration is
      gone. */
  lemma InvokeAfterRemove(bus: Bus, name: string, a: Action)
    requires name != "" && name in bus && a in bus[name] && |bus[name]| > 1
    ensures var before, i := Invoke(bus, Some(name)), Facts.IndexOf(bus[name], a);
      Invoke(RemoveEvt(bus, name, a), Some(name)) == before[..i] + before[i + 1..]
  {
  }


  /** In a well-formed registry, removing a registered action leaves no copy
      of it under that name. */
  lemma {:induction false} RemoveEvtRemovesAll(bus: Bus, name: string, a: Action)
    requires WellFormed(bus)
    requires name in bus && a in bus[name]
    ensures name in RemoveEvt(bus, name, a) ==> a !in RemoveEvt(bus, name, a)[name]
  {
    var s := bus[name];
    var r := RemoveEvt(bus, name, a);
    if name in r {
      var m := multiset(s);
      assert m[a] == 1 by {
        var i := Facts.IndexOf(s, a);
        MultisetCountNoDup(s, a, i);
      }
      assert multiset(r[name])[a] == 0;
    }
  }

  lemma {:induction false} MultisetCountNoDup<T>(s: seq<T>, x: T, i: nat)
    requires NoDuplicates(s)
    requires i < |s| && s[i] == x
    ensures multiset(s)[x] == 1
  {
    assert s == s[..i] + [x] + s[i + 1..];
    assert x !in s[..i];
    assert x !in s[i + 1..] by {
      forall k | i + 1 <= k < |s|
        ensures s[k] != x
      {
      }
    }
    assert multiset(s[..i])[x] == 0;
    assert multiset(s[i + 1..])[x] == 0;
  }
}
