/** What wiring a component means, stated over the contents of the
    registry (which no step of a bring-up pass changes): which component a
    field is wired to, what value each tagged field ends up holding, the
    order in which components complete and the hook calls they make. */
module Wiring {
  import opened Base
  import opened Descriptors
  import Convert

  /** The registry's contents: the type system's answers, the value store,
      components by name and component names by concrete type. */
  datatype Registry = Registry(
    univ: Universe,
    values: map<string, Val>,
    names: map<string, Obj>,
    components: map<GoType, seq<string>>)

  /** Calls of the lifecycle hooks, in the order they happen. */
  datatype Event = Init(comp: string) | InitLast(comp: string)

  /** What a field without a `value` tag is wired to. */
  datatype Resolution =
    | Untouched                 // neither a `name` nor a `wire` tag
    | Found(name: string)       // exactly one component qualifies
    | UnknownName(target: string)
    | NoneOfType                // nothing registered of the field's type
    | ManyOfType                // more than one registered of the field's type

  /** A field the resolver writes: it has a `value`, `name` or `wire` tag. */
  predicate Bound(f: Field) {
    f.valueTag.Some? || f.nameTag.Some? || f.wireTag
  }

  lemma {:induction false} SubsetCard(a: set<string>, b: set<string>)
    requires a <= b
    ensures |a| <= |b|
  {
    assert b == a + (b - a);
  }

  /** The one element of a one-element set. */
  ghost function Only(s: set<string>): (x: string)
    requires |s| == 1
    ensures s == {x}
  {
    var x :| x in s;
    assert s == {x} by {
      forall y | y in s ensures y == x {
        if y != x {
          SubsetCard({x, y}, s);
        }
      }
    }
    x
  }

  /** The two indexes describe the same components: each type's list holds
      its components once each, and every component is in its type's list. */
  ghost predicate IndexValid(reg: Registry) {
    // One let-bound conjunction: the verifier then takes the predicate as a
    // whole where it is used instead of splitting it into every conjunct.
    var ok :=
      (forall t :: t in reg.components ==> reg.components[t] != [] && Distinct(reg.components[t])) &&
      (forall t, n :: t in reg.components && n in reg.components[t] ==> n in reg.names && reg.names[n].ty == t) &&
      (forall n :: n in reg.names ==> reg.names[n].ty in reg.components && n in reg.components[reg.names[n].ty]);
    ok
  }

  /** Components whose concrete type is exactly t. */
  ghost function ExactMatches(reg: Registry, t: GoType): set<string> {
    set n | n in reg.names && reg.names[n].ty == t
  }

  /** Components whose concrete type is not in keys: during a walk over the
      type index, the components of the types already visited. */
  ghost function ComponentsOutside(reg: Registry, keys: set<GoType>): set<string> {
    set n | n in reg.names && reg.names[n].ty !in keys
  }

  /** Visiting type k adds exactly its components, none of them visited
      before. */
  lemma {:induction false} OutsideStep(reg: Registry, keys: set<GoType>, k: GoType)
    requires k in keys
    ensures ComponentsOutside(reg, keys - {k}) == ComponentsOutside(reg, keys) + ExactMatches(reg, k)
    ensures ComponentsOutside(reg, keys) !! ExactMatches(reg, k)
  {
  }

  /** A walk over the type index starts with no component visited and ends
      with every component visited. */
  lemma {:induction false} OutsideEnds(reg: Registry)
    requires IndexValid(reg)
    ensures ComponentsOutside(reg, reg.components.Keys) == {}
    ensures ComponentsOutside(reg, {}) == reg.names.Keys
  {
  }

  /** Components whose concrete type implements the interface t. */
  ghost function Implementors(reg: Registry, t: GoType): set<string> {
    set n | n in reg.names && (reg.names[n].ty, t) in reg.univ.implements
  }

  /** Implementors of t among the components whose type is not in keys. */
  ghost function ImplementorsOutside(reg: Registry, t: GoType, keys: set<GoType>): set<string> {
    set n | n in reg.names && reg.names[n].ty !in keys && (reg.names[n].ty, t) in reg.univ.implements
  }

  /** Taking one more type out of the keys still to visit adds its
      components when the type implements t. */
  lemma {:induction false} ImplementorsStep(reg: Registry, t: GoType, keys: set<GoType>, k: GoType)
    ensures ImplementorsOutside(reg, t, keys - {k}) ==
              ImplementorsOutside(reg, t, keys) +
              (if k in keys && (k, t) in reg.univ.implements then ExactMatches(reg, k) else {})
  {
  }

  /** The type index holds, for each type, exactly its components once each. */
  lemma {:induction false} ExactIndex(reg: Registry, t: GoType)
    requires IndexValid(reg)
    ensures t in reg.components ==>
              Elems(reg.components[t]) == ExactMatches(reg, t) &&
              |reg.components[t]| == |ExactMatches(reg, t)|
    ensures t !in reg.components ==> ExactMatches(reg, t) == {}
  {
  }

  /** Adding a component under a new name, at the end of its type's list,
      keeps the two indexes describing the same components. */
  lemma {:induction false} IndexAdd(reg: Registry, name: string, o: Obj, list: seq<string>)
    requires IndexValid(reg) && name !in reg.names
    requires list == if o.ty in reg.components then reg.components[o.ty] else []
    ensures IndexValid(reg.(names := reg.names[name := o], components := reg.components[o.ty := list + [name]]))
  {
    var reg' := reg.(names := reg.names[name := o], components := reg.components[o.ty := list + [name]]);
    ElemsAppend(list, [name]);
    DistinctOne(name);
    IndexAddLists(reg, reg', name, o, list);
    IndexAddTypes(reg, reg', name, o, list);
    IndexAddNames(reg, reg', name, o, list);
  }

  lemma {:induction false} IndexAddLists(reg: Registry, reg': Registry, name: string, o: Obj, list: seq<string>)
    requires IndexValid(reg) && name !in reg.names
    requires list == if o.ty in reg.components then reg.components[o.ty] else []
    requires reg' == reg.(names := reg.names[name := o], components := reg.components[o.ty := list + [name]])
    ensures forall t :: t in reg'.components ==> reg'.components[t] != [] && Distinct(reg'.components[t])
  {
    assert name !in list;
    DistinctOne(name);
    DistinctAppend(list, [name]);
  }

  lemma {:induction false} IndexAddTypes(reg: Registry, reg': Registry, name: string, o: Obj, list: seq<string>)
    requires IndexValid(reg) && name !in reg.names && Elems(list + [name]) == Elems(list) + {name}
    requires list == if o.ty in reg.components then reg.components[o.ty] else []
    requires reg' == reg.(names := reg.names[name := o], components := reg.components[o.ty := list + [name]])
    ensures forall t, m :: t in reg'.components && m in reg'.components[t] ==> m in reg'.names && reg'.names[m].ty == t
  {
    forall t, m | t in reg'.components && m in reg'.components[t]
      ensures m in reg'.names && reg'.names[m].ty == t
    {
      if t == o.ty && m !in list {
        assert m in Elems(list + [name]);
      }
    }
  }

  lemma {:induction false} IndexAddNames(reg: Registry, reg': Registry, name: string, o: Obj, list: seq<string>)
    requires IndexValid(reg)
    requires list == if o.ty in reg.components then reg.components[o.ty] else []
    requires reg' == reg.(names := reg.names[name := o], components := reg.components[o.ty := list + [name]])
    ensures forall m :: m in reg'.names ==> reg'.names[m].ty in reg'.components && m in reg'.components[reg'.names[m].ty]
  {
    forall m | m in reg'.names
      ensures reg'.names[m].ty in reg'.components && m in reg'.components[reg'.names[m].ty]
    {
      if m != name && reg.names[m].ty == o.ty {
        assert m in list + [name];
      }
    }
  }

  /** The component a field without a `value` tag is wired to: by its `name`
      tag if it has one; otherwise, with a `wire` tag, the single component
      of the field's type (one pointer level removed), or, for an interface
      type with no such component, the single implementor. */
  ghost function Resolve(reg: Registry, f: Field): (r: Resolution)
    ensures r.Found? ==> r.name in reg.names
  {
    if f.nameTag.Some? then
      (if f.nameTag.value in reg.names then Found(f.nameTag.value) else UnknownName(f.nameTag.value))
    else if !f.wireTag then Untouched
    else
      var t := f.ty.base;
      var exact := ExactMatches(reg, t);
      if |exact| > 1 then ManyOfType
      else if |exact| == 1 then Found(Only(exact))
      else if t.kind != InterfaceKind then NoneOfType
      else
        var impl := Implementors(reg, t);
        if |impl| == 0 then NoneOfType
        else if |impl| > 1 then ManyOfType
        else Found(Only(impl))
  }

  /** When a field is wired to d: by its `name` tag alone when it has one;
      otherwise only with a `wire` tag, when d is the one component of
      exactly the field's type, or, for an interface type with no such
      component, the one implementor. */
  lemma {:induction false} ResolveFound(reg: Registry, f: Field, d: string)
    ensures Resolve(reg, f) == Found(d) <==>
              if f.nameTag.Some? then f.nameTag.value == d && d in reg.names
              else
                f.wireTag &&
                (ExactMatches(reg, f.ty.base) == {d} ||
                 (ExactMatches(reg, f.ty.base) == {} && f.ty.base.kind == InterfaceKind &&
                  Implementors(reg, f.ty.base) == {d}))
  {
    var t := f.ty.base;
    if f.nameTag.None? && f.wireTag {
      if ExactMatches(reg, t) == {d} {
        assert |ExactMatches(reg, t)| == 1;
      } else if ExactMatches(reg, t) == {} && t.kind == InterfaceKind && Implementors(reg, t) == {d} {
        assert |Implementors(reg, t)| == 1;
      }
    }
  }

  /** When a field is ambiguous: no `name` tag, a `wire` tag, and either
      several components of exactly its type, or none of those, an
      interface type and several implementors. */
  lemma {:induction false} ResolveAmbiguous(reg: Registry, f: Field)
    ensures Resolve(reg, f) == ManyOfType <==>
              f.nameTag.None? && f.wireTag &&
              (|ExactMatches(reg, f.ty.base)| > 1 ||
               (ExactMatches(reg, f.ty.base) == {} && f.ty.base.kind == InterfaceKind &&
                |Implementors(reg, f.ty.base)| > 1))
  {
  }

  /** When nothing is registered for a field: no `name` tag, a `wire` tag,
      no component of exactly its type, and either a type that is not an
      interface or an interface without implementors. */
  lemma {:induction false} ResolveNothing(reg: Registry, f: Field)
    ensures Resolve(reg, f) == NoneOfType <==>
              f.nameTag.None? && f.wireTag && ExactMatches(reg, f.ty.base) == {} &&
              (f.ty.base.kind != InterfaceKind || Implementors(reg, f.ty.base) == {})
  {
  }

  /** The value field k of o holds once wired: the stored value converted to
      the field's type for a `value` tag; for a component field, the
      target's pointer, or for a non-pointer field a copy of the target. */
  ghost predicate Expected(reg: Registry, o: Obj, k: nat, v: FieldVal)
    requires k < |o.layout|
  {
    var f := o.layout[k];
    if f.valueTag.Some? then
      f.valueTag.value in reg.values &&
      Convert.ConvertValue(reg.univ, reg.values[f.valueTag.value], f.ty) == Ok(v)
    else
      match Resolve(reg, f)
      case Found(d) => d in reg.names && (if f.ty.isPointer then v == RefV(reg.names[d]) else v.CopyV?)
      case _ => false
  }

  /** Each of the first i tagged fields holds its expected value. */
  ghost predicate WiredUpTo(reg: Registry, o: Obj, fs: seq<FieldVal>, i: nat) {
    forall k :: 0 <= k < i && k < |o.layout| && k < |fs| && Bound(o.layout[k]) ==> Expected(reg, o, k, fs[k])
  }

  /** Every tagged field of a struct holds its expected value. */
  ghost predicate WiredFields(reg: Registry, o: Obj, fs: seq<FieldVal>) {
    o.ty.kind == StructKind ==> WiredUpTo(reg, o, fs, |o.layout|)
  }

  /** From before to after, each field either kept its value or received its
      expected one; untagged fields in particular are never written. */
  ghost predicate Evolved(reg: Registry, o: Obj, before: seq<FieldVal>, after: seq<FieldVal>) {
    |after| == |before| &&
    forall k :: 0 <= k < |after| && k < |o.layout| ==> after[k] == before[k] || Expected(reg, o, k, after[k])
  }

  /** Components the first i fields of a layout are wired to. */
  ghost function DepsUpTo(reg: Registry, layout: seq<Field>, i: nat): set<string>
    requires i <= |layout|
  {
    if i == 0 then {}
    else
      var f := layout[i - 1];
      DepsUpTo(reg, layout, i - 1) +
      (if f.valueTag.None? && Resolve(reg, f).Found? then {Resolve(reg, f).name} else {})
  }

  /** Components that component n's fields are wired to. */
  ghost function Deps(reg: Registry, n: string): set<string>
    requires n in reg.names
  {
    var o := reg.names[n];
    if o.ty.kind == StructKind then DepsUpTo(reg, o.layout, |o.layout|) else {}
  }

  /** From position from on, every component in the completion order
      completed after all of its dependencies. */
  ghost predicate Topo(reg: Registry, order: seq<string>, from: nat) {
    forall j :: from <= j < |order| ==> order[j] in reg.names && Deps(reg, order[j]) <= Elems(order[..j])
  }

  /** The Init call component n makes when it completes: one when its
      type has an Init method, none otherwise. */
  ghost function InitOf(reg: Registry, n: string): seq<Event> {
    if n in reg.names && reg.names[n].ty in reg.univ.withInit then [Init(n)] else []
  }

  /** The Init calls made when the components in s complete, in order. */
  ghost function InitEvents(reg: Registry, s: seq<string>): seq<Event> {
    if s == [] then [] else InitEvents(reg, s[..|s| - 1]) + InitOf(reg, s[|s| - 1])
  }

  /** The InitLast calls made when the components in s are visited, in order. */
  ghost function InitLastEvents(reg: Registry, s: seq<string>): seq<Event> {
    if s == [] then []
    else
      var n := s[|s| - 1];
      InitLastEvents(reg, s[..|s| - 1]) +
      (if n in reg.names && reg.names[n].ty in reg.univ.withInitLast then [InitLast(n)] else [])
  }

  lemma {:induction false} InitEventsAppend(reg: Registry, a: seq<string>, b: seq<string>)
    ensures InitEvents(reg, a + b) == InitEvents(reg, a) + InitEvents(reg, b)
    decreases |b|
  {
    if b == [] {
      assert a + b == a;
    } else {
      var b' := b[..|b| - 1];
      assert (a + b)[..|a + b| - 1] == a + b';
      InitEventsAppend(reg, a, b');
    }
  }

  lemma {:induction false} InitLastEventsAppend(reg: Registry, a: seq<string>, b: seq<string>)
    ensures InitLastEvents(reg, a + b) == InitLastEvents(reg, a) + InitLastEvents(reg, b)
    decreases |b|
  {
    if b == [] {
      assert a + b == a;
    } else {
      var b' := b[..|b| - 1];
      assert (a + b)[..|a + b| - 1] == a + b';
      InitLastEventsAppend(reg, a, b');
    }
  }

  /** Object memory: the field contents of every live struct. */
  type Heap = map<Obj, seq<FieldVal>>

  /** Every object kept its fields' count and each field either kept its
      value or received its expected one. */
  ghost predicate EvolvedAll(reg: Registry, h0: Heap, h1: Heap) {
    h0.Keys == h1.Keys && forall o :: o in h0 ==> Evolved(reg, o, h0[o], h1[o])
  }

  /** Every component in done has all its tagged fields wired. */
  ghost predicate Wired(reg: Registry, h: Heap, done: set<string>) {
    forall m :: m in done ==> m in reg.names && reg.names[m] in h && WiredFields(reg, reg.names[m], h[reg.names[m]])
  }

  /** Wiring field i after the first i, while the fields evolve, wires the
      first i + 1. */
  lemma {:induction false} WiredUpToStep(reg: Registry, o: Obj, before: seq<FieldVal>, after: seq<FieldVal>, i: nat)
    requires WiredUpTo(reg, o, before, i) && Evolved(reg, o, before, after)
    requires i < |o.layout| && i < |after|
    requires Bound(o.layout[i]) ==> Expected(reg, o, i, after[i])
    ensures WiredUpTo(reg, o, after, i + 1)
  {
  }

  lemma {:induction false} EvolvedTrans(reg: Registry, h0: Heap, h1: Heap, h2: Heap)
    requires EvolvedAll(reg, h0, h1) && EvolvedAll(reg, h1, h2)
    ensures EvolvedAll(reg, h0, h2)
  {
    forall o | o in h0 ensures Evolved(reg, o, h0[o], h2[o]) {
      assert Evolved(reg, o, h0[o], h1[o]) && Evolved(reg, o, h1[o], h2[o]);
    }
  }

  /** Wiring, once done, survives any evolution: a field that changes again
      changes to its expected value. */
  lemma {:induction false} WiredStable(reg: Registry, h0: Heap, h1: Heap, done: set<string>)
    requires Wired(reg, h0, done) && EvolvedAll(reg, h0, h1)
    ensures Wired(reg, h1, done)
  {
    forall m | m in done
      ensures m in reg.names && reg.names[m] in h1 && WiredFields(reg, reg.names[m], h1[reg.names[m]])
    {
      var o := reg.names[m];
      assert Evolved(reg, o, h0[o], h1[o]);
    }
  }

  lemma {:induction false} WiredUnion(reg: Registry, h: Heap, a: set<string>, b: set<string>)
    requires Wired(reg, h, a) && Wired(reg, h, b)
    ensures Wired(reg, h, a + b)
  {
  }

  /** One more wired component joins the wired ones. */
  lemma {:induction false} WiredAdd(reg: Registry, h: Heap, done0: set<string>, done1: set<string>, n: string)
    requires Wired(reg, h, done1 - done0)
    requires n in reg.names && reg.names[n] in h && WiredFields(reg, reg.names[n], h[reg.names[n]])
    ensures Wired(reg, h, done1 + {n} - done0)
  {
    assert Wired(reg, h, {n});
    WiredUnion(reg, h, done1 - done0, {n});
    assert done1 + {n} - done0 <= (done1 - done0) + {n};
  }

  /** From (order0, log0) to (order1, log1): the completion order grew by
      components that each completed after their dependencies, and the log
      grew by exactly their Init calls. */
  ghost predicate Progress(reg: Registry, order0: seq<string>, log0: seq<Event>,
                           order1: seq<string>, log1: seq<Event>) {
    |order0| <= |order1| && order1[..|order0|] == order0 &&
    log1 == log0 + InitEvents(reg, order1[|order0|..]) &&
    Topo(reg, order1, |order0|)
  }

  lemma {:induction false} ProgressTrans(reg: Registry, o0: seq<string>, l0: seq<Event>, o1: seq<string>, l1: seq<Event>,
                      o2: seq<string>, l2: seq<Event>)
    requires Progress(reg, o0, l0, o1, l1) && Progress(reg, o1, l1, o2, l2)
    ensures Progress(reg, o0, l0, o2, l2)
  {
    LogTrans(reg, o0, l0, o1, l1, o2, l2);
    TopoTrans(reg, o0, o1, o2);
  }

  lemma {:induction false} LogTrans(reg: Registry, o0: seq<string>, l0: seq<Event>, o1: seq<string>, l1: seq<Event>,
                 o2: seq<string>, l2: seq<Event>)
    requires |o0| <= |o1| && o1[..|o0|] == o0 && l1 == l0 + InitEvents(reg, o1[|o0|..])
    requires |o1| <= |o2| && o2[..|o1|] == o1 && l2 == l1 + InitEvents(reg, o2[|o1|..])
    ensures o2[..|o0|] == o0 && l2 == l0 + InitEvents(reg, o2[|o0|..])
  {
    var a, b := o1[|o0|..], o2[|o1|..];
    PrefixSplit(o0, o1, o2);
    InitEventsAppend(reg, a, b);
    LogJoin(l0, InitEvents(reg, a), l1, InitEvents(reg, b), l2);
  }

  /** Two successive extensions of a log are one extension by both. */
  lemma {:induction false} LogJoin(l0: seq<Event>, e1: seq<Event>, l1: seq<Event>, e2: seq<Event>, l2: seq<Event>)
    requires l1 == l0 + e1 && l2 == l1 + e2
    ensures l2 == l0 + (e1 + e2)
  {
  }

  lemma {:induction false} TopoTrans(reg: Registry, o0: seq<string>, o1: seq<string>, o2: seq<string>)
    requires |o0| <= |o1| <= |o2| && o2[..|o1|] == o1
    requires Topo(reg, o1, |o0|) && Topo(reg, o2, |o1|)
    ensures Topo(reg, o2, |o0|)
  {
    forall j | |o0| <= j < |o1| ensures o2[j] in reg.names && Deps(reg, o2[j]) <= Elems(o2[..j]) {
      assert o2[..j] == o1[..j];
      assert o2[j] == o1[j];
    }
  }

  /** Completing n after its dependencies extends the progress by n and its
      Init call. */
  lemma {:induction false} ProgressStep(reg: Registry, o0: seq<string>, l0: seq<Event>, o1: seq<string>, l1: seq<Event>, n: string)
    requires Progress(reg, o0, l0, o1, l1)
    requires n in reg.names && Deps(reg, n) <= Elems(o1)
    ensures Progress(reg, o0, l0, o1 + [n], l1 + InitOf(reg, n))
  {
    assert (o1 + [n])[..|o0|] == o0;
    LogSnoc(reg, o0, l0, o1, l1, n);
    TopoSnoc(reg, o1, |o0|, n);
  }

  /** The log after one more completion, n's Init call included. */
  lemma {:induction false} LogSnoc(reg: Registry, o0: seq<string>, l0: seq<Event>, o1: seq<string>, l1: seq<Event>, n: string)
    requires |o0| <= |o1| && l1 == l0 + InitEvents(reg, o1[|o0|..])
    ensures l1 + InitOf(reg, n) == l0 + InitEvents(reg, (o1 + [n])[|o0|..])
  {
    var x, y := o1[|o0|..], (o1 + [n])[|o0|..];
    assert y == x + [n] && y[..|y| - 1] == x;
    assert InitEvents(reg, y) == InitEvents(reg, x) + InitOf(reg, n);
  }

  /** Appending a component whose dependencies are already in the order
      keeps the order topological. */
  lemma {:induction false} TopoSnoc(reg: Registry, o1: seq<string>, from: nat, n: string)
    requires Topo(reg, o1, from) && from <= |o1|
    requires n in reg.names && Deps(reg, n) <= Elems(o1)
    ensures Topo(reg, o1 + [n], from)
  {
    var o2 := o1 + [n];
    forall j | from <= j < |o2| ensures o2[j] in reg.names && Deps(reg, o2[j]) <= Elems(o2[..j]) {
      if j < |o1| {
        assert o2[..j] == o1[..j];
      } else {
        assert o2[..j] == o1;
      }
    }
  }

  /** What the resolver builds up while it wires: the registry it reads,
      object memory, the stack of components being wired, the completed
      set, the completion order and the hook log. */
  datatype State = State(reg: Registry, mem: Heap, stack: seq<string>, done: set<string>,
                         order: seq<string>, log: seq<Event>)

  /** From s0 to s1 the resolver made progress: the registry is the same,
      completed components stay completed, each field either kept its value
      or received its expected one, components completed after their
      dependencies with their Init calls logged, and every component that
      completed in between is wired. */
  ghost predicate Advanced(s0: State, s1: State) {
    // One let-bound conjunction: the verifier then takes the predicate as a
    // whole where it is used instead of splitting it into every conjunct.
    var ok := s1.reg == s0.reg && s0.done <= s1.done &&
              EvolvedAll(s0.reg, s0.mem, s1.mem) &&
              Progress(s0.reg, s0.order, s0.log, s1.order, s1.log) &&
              Wired(s0.reg, s1.mem, s1.done - s0.done);
    ok
  }

  lemma {:induction false} AdvancedRefl(s: State)
    ensures Advanced(s, s)
  {
    assert s.order[|s.order|..] == [];
  }

  lemma {:induction false} AdvancedTrans(s0: State, s1: State, s2: State)
    requires Advanced(s0, s1) && Advanced(s1, s2)
    ensures Advanced(s0, s2)
  {
    EvolvedTrans(s0.reg, s0.mem, s1.mem, s2.mem);
    ProgressTrans(s0.reg, s0.order, s0.log, s1.order, s1.log, s2.order, s2.log);
    WiredStable(s0.reg, s1.mem, s2.mem, s1.done - s0.done);
    WiredUnion(s0.reg, s2.mem, s1.done - s0.done, s2.done - s1.done);
    assert s2.done - s0.done == (s1.done - s0.done) + (s2.done - s1.done);
  }

  /** A write that leaves every field with its old or its expected value
      keeps the progress made. */
  lemma {:induction false} AdvancedWrite(s0: State, s1: State, h: Heap)
    requires Advanced(s0, s1) && EvolvedAll(s1.reg, s1.mem, h)
    ensures Advanced(s0, s1.(mem := h))
  {
    EvolvedTrans(s0.reg, s0.mem, s1.mem, h);
    WiredStable(s0.reg, s1.mem, h, s1.done - s0.done);
  }
}
