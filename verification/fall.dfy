/** The bring-up engine: a registry of named components and named values,
    a resolver that wires each component's tagged fields (recursing into
    dependencies first and rejecting cycles), and a two-phase lifecycle
    driver. All of its state lives in one Context object; each resolver
    method is proved to compute exactly the corresponding function of
    module Resolver. */
module Fall {
  import opened Base
  import opened Descriptors
  import Naming
  import Convert
  import Properties
  import opened Wiring
  import opened Resolver

  /** The panics of registration and of loading values, which happen
      before the resolver runs. */
  datatype RegistrationError =
    | InvalidLine(line: string)
    | DuplicateValue(name: string)
    | NotPointer
    | NoTypeName
    | DuplicateName(name: string)

  /** Going through the components of type k, after those of the types
      outside keys, goes through each component of the types outside
      keys - {k} once. */
  lemma {:induction false} VisitedStep(reg: Registry, keys: set<GoType>, k: GoType, visited: seq<string>, list: seq<string>)
    requires k in keys
    requires Distinct(visited) && Elems(visited) == ComponentsOutside(reg, keys)
    requires Distinct(list) && Elems(list) == ExactMatches(reg, k)
    ensures Distinct(visited + list) && Elems(visited + list) == ComponentsOutside(reg, keys - {k})
  {
    OutsideStep(reg, keys, k);
    DistinctAppend(visited, list);
    ElemsAppend(visited, list);
  }

  /** The InitLast calls for one more component of a list. */
  lemma {:induction false} InitLastSnoc(reg: Registry, ns: seq<string>, j: nat)
    requires j < |ns|
    ensures InitLastEvents(reg, ns[..j + 1]) ==
              InitLastEvents(reg, ns[..j]) +
              if ns[j] in reg.names && reg.names[ns[j]].ty in reg.univ.withInitLast then [InitLast(ns[j])] else []
  {
    assert ns[..j + 1][..j] == ns[..j];
  }

  /** One more element of a list extends its prefix by that element. */
  lemma {:induction false} PrefixNext<T>(list: seq<T>, j: nat)
    requires j < |list|
    ensures list[..j + 1] == list[..j] + [list[j]]
    ensures list[j] in Elems(list)
    ensures Elems(list[..j + 1]) == Elems(list[..j]) + {list[j]}
  {
    assert list[..j + 1] == list[..j] + [list[j]];
    ElemsAppend(list[..j], [list[j]]);
    DistinctOne(list[j]);
  }

  /** The InitLast calls of a, then those of b, are those of a + b. */
  lemma {:induction false} InitLastLogStep(reg: Registry, l0: seq<Event>, a: seq<string>, l1: seq<Event>, b: seq<string>, l2: seq<Event>)
    requires l1 == l0 + InitLastEvents(reg, a) && l2 == l1 + InitLastEvents(reg, b)
    ensures l2 == l0 + InitLastEvents(reg, a + b)
  {
    InitLastEventsAppend(reg, a, b);
    calc {
      l2;
      l0 + InitLastEvents(reg, a) + InitLastEvents(reg, b);
      l0 + (InitLastEvents(reg, a) + InitLastEvents(reg, b));
      l0 + InitLastEvents(reg, a + b);
    }
  }

  class Context {
    /** The Go type system's answers the engine relies on. */
    const univ: Universe
    /** Named configuration values. */
    var values: map<string, Val>
    /** Components by unique name. */
    var names: map<string, Obj>
    /** Component names by concrete type, in registration order. */
    var components: map<GoType, seq<string>>
    /** Names of the components being wired, innermost last, and the same names as a set. */
    var regStack: seq<string>
    var regStackSet: set<string>
    /** Object memory: the field contents of every registered struct. */
    var mem: Heap
    /** Components whose wiring has completed. */
    var registered: set<string>
    /** Hook calls made so far. */
    var log: seq<Event>
    /** Components in the order their wiring completed. */
    ghost var order: seq<string>

    /** The registry's current contents. */
    ghost function Reg(): Registry
      reads this`values, this`names, this`components
    {
      Registry(univ, values, names, components)
    }

    /** The resolver's state as one value. */
    ghost function St(): State
      reads this
    {
      State(Reg(), mem, regStack, registered, order, log)
    }

    /** The state is sound and the stack's set mirrors the stack. */
    ghost predicate Valid()
      reads this
    {
      Sound(St()) && regStackSet == Elems(regStack)
    }

    constructor (univ: Universe)
      ensures Valid() && IndexValid(Reg()) && this.univ == univ
      ensures values == map[] && names == map[] && components == map[] && mem == map[]
      ensures regStack == [] && registered == {} && log == [] && order == []
    {
      this.univ := univ;
      values, names, components, mem := map[], map[], map[], map[];
      regStack, regStackSet, registered := [], {}, {};
      log, order := [], [];
      new;
      assert Elems<string>([]) == {};
    }

    // ---------------------------------------------------------------
    // Registry and value store

    /** Stores a named value; a name already in use fails and changes nothing. */
    method RegisterValue(name: string, value: Val) returns (r: Outcome<RegistrationError>)
      requires Valid() && IndexValid(Reg())
      modifies this`values
      ensures Valid() && IndexValid(Reg())
      ensures name in old(values) ==> r == Fail(DuplicateValue(name)) && values == old(values)
      ensures name !in old(values) ==> r == Pass && values == old(values)[name := value]
    {
      if name in values {
        return Fail(DuplicateValue(name));
      }
      values := values[name := value];
      return Pass;
    }

    /** Loads the lines of a properties file into the value store, in
        order; the first line that is not a `key=value` pair fails, the
        lines before it staying loaded. */
    method LoadProperties(lines: seq<string>) returns (r: Outcome<RegistrationError>)
      requires Valid() && IndexValid(Reg())
      modifies this`values
      ensures Valid() && IndexValid(Reg())
      ensures values == Properties.Load(old(values), lines).store
      ensures r == match Properties.Load(old(values), lines).bad
                   case Some(line) => Fail(InvalidLine(line))
                   case None => Pass
    {
      ghost var s0 := St();
      var i := 0;
      while i < |lines|
        invariant i <= |lines| && St() == s0.(reg := s0.reg.(values := values))
        invariant Properties.Load(old(values), lines) == Properties.Load(values, lines[i..])
        decreases |lines| - i
      {
        Properties.LoadStep(values, lines, i);
        var p := Properties.ParseLine(lines[i]);
        if p.Err? {
          StoreIndependent(s0, values);
          return Fail(InvalidLine(lines[i]));
        }
        values := values[p.value.0 := StrVal(p.value.1)];
        i := i + 1;
      }
      StoreIndependent(s0, values);
      return Pass;
    }

    /** The components registered with type t, as a sequence. */
    function ComponentsOf(t: GoType): (list: seq<string>)
      requires IndexValid(Reg())
      reads this
      ensures Distinct(list) && Elems(list) == ExactMatches(Reg(), t)
    {
      ExactIndex(Reg(), t);
      if t in components then components[t] else []
    }

    /** Registers a pointer under name: a non-pointer or a name already in
        use fails and changes nothing; otherwise the name maps to the
        object, and the name joins the end of its type's list. */
    method RegisterName(inst: Instance, name: string) returns (r: Outcome<RegistrationError>)
      requires Valid() && IndexValid(Reg())
      requires inst.Pointer? ==> |inst.init| == |inst.obj.layout|
      modifies this`names, this`components, this`mem
      ensures Valid() && IndexValid(Reg())
      ensures inst.NonPointer? ==> r == Fail(NotPointer)
      ensures inst.Pointer? && name in old(names) ==> r == Fail(DuplicateName(name))
      ensures r.Fail? ==> names == old(names) && components == old(components) && mem == old(mem)
      ensures inst.Pointer? && name !in old(names) ==>
                r == Pass &&
                names == old(names)[name := inst.obj] &&
                components == old(components)[inst.obj.ty := old(ComponentsOf(inst.obj.ty)) + [name]] &&
                mem == (if inst.obj in old(mem) then old(mem) else old(mem)[inst.obj := inst.init]) &&
                Get(name) == Some(inst.obj)
    {
      if inst.NonPointer? {
        return Fail(NotPointer);
      }
      if name in names {
        return Fail(DuplicateName(name));
      }
      var t := inst.obj.ty;
      var list := ComponentsOf(t);
      IndexAdd(Reg(), name, inst.obj, list);
      ghost var s0 := St();
      components := components[t := list + [name]];
      names := names[name := inst.obj];
      if inst.obj !in mem {
        mem := mem[inst.obj := inst.init];
      }
      SoundRegister(s0, St(), name, inst.obj, inst.init);
      return Pass;
    }

    /** Registers a pointer under its type's qualified name. */
    method Register(inst: Instance) returns (r: Outcome<RegistrationError>)
      requires Valid() && IndexValid(Reg())
      requires inst.Pointer? ==> |inst.init| == |inst.obj.layout|
      modifies this`names, this`components, this`mem
      ensures Valid() && IndexValid(Reg())
      ensures inst.NonPointer? ==> r == Fail(NotPointer)
      ensures inst.Pointer? && inst.obj.ty.pkgPath == [] && inst.obj.ty.name == [] ==> r == Fail(NoTypeName)
      ensures r.Fail? ==> names == old(names) && components == old(components) && mem == old(mem)
      ensures inst.Pointer? && Naming.QualifiedName(inst.obj.ty.pkgPath, inst.obj.ty.name) != [] ==>
                var n := Naming.QualifiedName(inst.obj.ty.pkgPath, inst.obj.ty.name);
                (n in old(names) ==> r == Fail(DuplicateName(n))) &&
                (n !in old(names) ==>
                   r == Pass &&
                   names == old(names)[n := inst.obj] &&
                   components == old(components)[inst.obj.ty := old(ComponentsOf(inst.obj.ty)) + [n]] &&
                   mem == (if inst.obj in old(mem) then old(mem) else old(mem)[inst.obj := inst.init]) &&
                   Get(n) == Some(inst.obj))
    {
      if inst.NonPointer? {
        return Fail(NotPointer);
      }
      var s := Naming.QualifiedName(inst.obj.ty.pkgPath, inst.obj.ty.name);
      if |s| == 0 {
        return Fail(NoTypeName);
      }
      r := RegisterName(inst, s);
    }

    /** The component registered under name, if any. */
    function Get(name: string): (r: Option<Obj>)
      reads this
      ensures name !in names <==> r == None
      ensures r.Some? ==> r.value == names[name]
    {
      if name in names then Some(names[name]) else None
    }

    // ---------------------------------------------------------------
    // Resolution of one field

    /** The interface scan: every registered type is visited once and the
        components of the types that implement t are collected. */
    method ScanImplementors(t: GoType) returns (all: seq<string>)
      requires IndexValid(Reg())
      ensures Distinct(all) && Elems(all) == Implementors(Reg(), t)
    {
      ghost var reg := Reg();
      all := [];
      var keys := components.Keys;
      while keys != {}
        invariant keys <= components.Keys
        invariant Distinct(all)
        invariant Elems(all) == ImplementorsOutside(reg, t, keys)
        decreases keys
      {
        var k :| k in keys;
        ImplementorsStep(reg, t, keys, k);
        if (k, t) in univ.implements {
          var more := ComponentsOf(k);
          DistinctAppend(all, more);
          ElemsAppend(all, more);
          all := all + more;
        }
        keys := keys - {k};
      }
      assert ImplementorsOutside(reg, t, {}) == Implementors(reg, t);
    }

    /** The strategy chain for a field without a `value` tag: `name` tag,
        then skip without a `wire` tag, then the exact type, then the
        interface scan. */
    method FindTarget(f: Field) returns (r: Resolution)
      requires IndexValid(Reg())
      ensures r == Resolve(Reg(), f)
    {
      if f.nameTag.Some? {
        if f.nameTag.value in names {
          return Found(f.nameTag.value);
        }
        return UnknownName(f.nameTag.value);
      }
      if !f.wireTag {
        return Untouched;
      }
      var t := f.ty.base;
      if t in components {
        var list := ComponentsOf(t);
        if |list| > 1 {
          return ManyOfType;
        }
        assert Elems(list) == {list[0]} by {
          assert list == [list[0]];
          DistinctOne(list[0]);
        }
        return Found(list[0]);
      }
      assert ComponentsOf(t) == [];
      if t.kind != InterfaceKind {
        return NoneOfType;
      }
      var all := ScanImplementors(t);
      if |all| == 0 {
        return NoneOfType;
      }
      if |all| > 1 {
        return ManyOfType;
      }
      assert Elems(all) == {all[0]} by {
        assert all == [all[0]];
        DistinctOne(all[0]);
      }
      return Found(all[0]);
    }

    /** What the resolver does with one field, decided before anything is
        written. */
    method Plan(n: string, f: Field) returns (a: Result<Action, Error>)
      requires IndexValid(Reg())
      ensures a == PlanOf(Reg(), n, f)
    {
      if f.valueTag.Some? {
        var vn := f.valueTag.value;
        if vn !in values {
          return Err(ValueMissing(n, f.name, vn));
        }
        var c := Convert.ConvertValue(univ, values[vn], f.ty);
        if c.Err? {
          return Err(ConvFailure(c.error, n, f.name, vn));
        }
        return Ok(Write(c.value));
      }
      var t := FindTarget(f);
      match t {
        case UnknownName(x) => a := Err(NameNotRegistered(n, f.name, x));
        case ManyOfType => a := Err(Ambiguous(n, f.name));
        case NoneOfType => a := Err(NothingRegistered(n, f.name));
        case Untouched => a := Ok(Skip);
        case Found(d) => a := Ok(WireTo(d));
      }
    }

    // ---------------------------------------------------------------
    // The resolver

    /** Wires component n: fails on a cycle when n is already being wired;
        otherwise pushes n, resolves each field of a struct in order (wiring
        a dependency that has not completed first), pops n, marks it
        completed and calls its Init hook. */
    method Process(n: string) returns (r: Outcome<Error>)
      requires Valid() && IndexValid(Reg())
      requires n in names && n !in registered
      modifies this`mem, this`regStack, this`regStackSet, this`registered, this`order, this`log
      decreases Pending(St()), 0
      ensures Valid()
      ensures Run(r, St()) == ProcessRun(old(St()), n)
    {
      if n in regStackSet {
        return Fail(Cycle(n, regStack));
      }
      ghost var s0 := St();
      Push(n);
      var obj := names[n];
      r := Pass;
      if obj.ty.kind == StructKind {
        r := WireFields(n, obj);
      }
      ghost var wired := St();
      ProcessWired(s0, n, Run(r, wired));
      if r.Fail? {
        return;
      }
      Finish(n, obj);
    }

    /** The fields of component n in declaration order, n being on the
        stack; stops at the first failure. */
    method WireFields(n: string, obj: Obj) returns (r: Outcome<Error>)
      requires Valid() && IndexValid(Reg())
      requires n in names && obj == names[n] && n in regStackSet
      modifies this`mem, this`regStack, this`regStackSet, this`registered, this`order, this`log
      decreases Pending(St()), 3
      ensures Valid()
      ensures Run(r, St()) == FieldsRun(old(St()), n, 0)
    {
      ghost var s0 := St();
      r := Pass;
      var i := 0;
      while i < |obj.layout|
        invariant i <= |obj.layout| && Valid() && Reg() == s0.reg
        invariant regStack == s0.stack && s0.done <= registered && r == Pass
        invariant FieldsRun(s0, n, 0) == FieldsRun(St(), n, i)
        decreases |obj.layout| - i
      {
        r := WireStep(n, obj, i);
        if r.Fail? {
          return;
        }
        i := i + 1;
      }
      FieldsRunStep(St(), n, i);
    }

    /** One turn of the field loop: field i, and what remains of the fields
        after it. */
    method WireStep(n: string, obj: Obj, i: nat) returns (r: Outcome<Error>)
      requires Valid() && IndexValid(Reg())
      requires n in names && obj == names[n] && n in regStackSet && i < |obj.layout|
      modifies this`mem, this`regStack, this`regStackSet, this`registered, this`order, this`log
      decreases Pending(St()), 2
      ensures Valid()
      ensures r.Fail? ==> FieldsRun(old(St()), n, i) == Run(r, St())
      ensures r.Pass? ==> regStack == old(regStack) && old(registered) <= registered
      ensures r.Pass? ==> FieldsRun(old(St()), n, i) == FieldsRun(St(), n, i + 1)
    {
      FieldsRunStep(St(), n, i);
      r := WireField(n, obj, i);
    }

    /** One field of component n while n is on the stack, per its plan:
        left alone, given its converted value, or given the pointer to (or
        a copy of) the component it is wired to, which is wired first when
        it has not completed. */
    method WireField(n: string, obj: Obj, i: nat) returns (r: Outcome<Error>)
      requires Valid() && IndexValid(Reg())
      requires n in names && obj == names[n] && n in regStackSet && i < |obj.layout|
      modifies this`mem, this`regStack, this`regStackSet, this`registered, this`order, this`log
      decreases Pending(St()), 1
      ensures Valid()
      ensures Run(r, St()) == FieldRun(old(St()), n, i)
    {
      var f := obj.layout[i];
      var a := Plan(n, f);
      match a {
        case Err(e) =>
          r := Fail(e);
        case Ok(Skip) =>
          r := Pass;
        case Ok(Write(v)) =>
          SetField(obj, i, v);
          r := Pass;
        case Ok(WireTo(d)) =>
          ghost var s0 := St();
          r := Pass;
          if d !in registered {
            r := Process(d);
          }
          FieldDep(s0, n, i, d, Run(r, St()));
          if r.Fail? {
            return;
          }
          var target := names[d];
          var v := if f.ty.isPointer then RefV(target) else CopyV(mem[target]);
          SetField(obj, i, v);
          r := Pass;
      }
    }

    /** Pushes n on the stack of components being wired. */
    method Push(n: string)
      requires Valid() && n in names && n !in registered && n !in regStackSet
      modifies this`regStack, this`regStackSet
      ensures Valid()
      ensures St() == old(St()).(stack := old(regStack) + [n])
      ensures regStackSet == old(regStackSet) + {n}
    {
      ElemsAppend(regStack, [n]);
      DistinctOne(n);
      regStack := regStack + [n];
      regStackSet := regStackSet + {n};
    }

    /** Pops n off the stack of components being wired. */
    method Pop(n: string)
      requires Valid()
      requires regStack != [] && regStack[|regStack| - 1] == n && n !in regStack[..|regStack| - 1]
      modifies this`regStack, this`regStackSet
      ensures St() == old(St()).(stack := old(regStack)[..|old(regStack)| - 1])
      ensures Valid() && n !in regStack
    {
      var rest := regStack[..|regStack| - 1];
      assert regStack == rest + [n];
      PopSound(St(), rest, n);
      ElemsAppend(rest, [n]);
      DistinctOne(n);
      regStackSet, regStack := regStackSet - {n}, rest;
    }

    /** n is on top of the stack, above components other than n. */
    ghost predicate OnTop(n: string, obj: Obj)
      reads this
    {
      // One let-bound conjunction: the verifier then takes the predicate as a
      // whole where it is used instead of splitting it into every conjunct.
      var ok := Valid() && n in names && obj == names[n] && regStack != [] &&
                regStack[|regStack| - 1] == n && n !in regStack[..|regStack| - 1];
      ok
    }

    /** The end of the wiring of n: n leaves the stack and completes. */
    method Finish(n: string, obj: Obj)
      requires OnTop(n, obj)
      modifies this`regStack, this`regStackSet, this`registered, this`order, this`log
      ensures St() == Completed(old(St()), n) && Valid()
    {
      assert n in Elems(regStack);
      Pop(n);
      MarkDone(n, obj);
    }

    /** Marks n, no longer on the stack, completed and calls its Init hook
        when it has one. */
    method MarkDone(n: string, obj: Obj)
      requires Valid() && n in names && obj == names[n] && n !in registered && n !in regStackSet
      modifies this`registered, this`order, this`log
      ensures St() == old(St()).(done := old(registered) + {n}, order := old(order) + [n],
                                 log := old(log) + InitOf(Reg(), n))
      ensures Valid()
    {
      DistinctOne(n);
      DistinctAppend(order, [n]);
      ElemsAppend(order, [n]);
      var hook := if obj.ty in univ.withInit then [Init(n)] else [];
      registered, order, log := registered + {n}, order + [n], log + hook;
    }

    /** Writes field i of o. */
    method SetField(o: Obj, i: nat, v: FieldVal)
      requires Valid() && o in mem && i < |mem[o]|
      modifies this`mem
      ensures Valid()
      ensures St() == Written(old(St()), o, i, v)
    {
      mem := mem[o := mem[o][i := v]];
    }

    // ---------------------------------------------------------------
    // The lifecycle driver

    /** The bring-up: phase one wires, type by type in the registry's
        (unspecified) map order, every component that has not completed;
        phase two then calls the InitLast hook of every component, again
        type by type. `visited` and `lastOrder` record the orders the two
        phases went through the components in. */
    method Start() returns (r: Outcome<Error>, ghost visited: seq<string>, ghost lastOrder: seq<string>)
      requires Valid() && IndexValid(Reg())
      modifies this`mem, this`regStack, this`regStackSet, this`registered, this`order, this`log
      ensures Valid() && Elems(visited) <= names.Keys
      ensures r.Fail? ==> Run(r, St()) == VisitRun(old(St()), visited)
      ensures r.Pass? ==>
                Distinct(visited) && Elems(visited) == names.Keys &&
                Distinct(lastOrder) && Elems(lastOrder) == names.Keys &&
                var p := VisitRun(old(St()), visited);
                p.out == Pass && St() == p.st.(log := p.st.log + InitLastEvents(Reg(), lastOrder))
      ensures r.Pass? ==> registered == names.Keys
    {
      ghost var s0 := St();
      r, visited := WireAll();
      if r.Fail? {
        lastOrder := [];
        return;
      }
      ghost var mid := St();
      VisitAll(s0, visited);
      lastOrder := CallInitLast();
      SoundLog(mid, log);
      assert St() == mid.(log := log);
    }

    /** Phase one of the bring-up: the types in the registry's map order. */
    method WireAll() returns (r: Outcome<Error>, ghost visited: seq<string>)
      requires Valid() && IndexValid(Reg())
      modifies this`mem, this`regStack, this`regStackSet, this`registered, this`order, this`log
      ensures Valid() && Elems(visited) <= names.Keys
      ensures Run(r, St()) == VisitRun(old(St()), visited)
      ensures r.Pass? ==> Distinct(visited) && Elems(visited) == names.Keys
    {
      ghost var s0 := St();
      r, visited := Pass, [];
      assert Elems<string>([]) == {};
      OutsideEnds(s0.reg);
      var keys := components.Keys;
      while keys != {}
        invariant keys <= components.Keys && Valid() && Reg() == s0.reg && r == Pass
        invariant Distinct(visited) && Elems(visited) == ComponentsOutside(s0.reg, keys)
        invariant VisitRun(s0, visited) == Run(Pass, St())
        decreases keys
      {
        var k :| k in keys;
        ghost var mid := St();
        ghost var done;
        r, done := WireType(k);
        VisitRunAppend(s0, visited, done);
        assert VisitRun(s0, visited + done) == VisitRun(mid, done) == Run(r, St());
        if r.Fail? {
          visited := visited + done;
          return;
        }
        VisitedStep(s0.reg, keys, k, visited, done);
        visited := visited + done;
        keys := keys - {k};
      }
    }

    /** Phase one for the components of type k, in registration order: each
        one not yet completed is wired; stops at the first failure. `done`
        is the part of the list gone through. */
    method WireType(k: GoType) returns (r: Outcome<Error>, ghost done: seq<string>)
      requires Valid() && IndexValid(Reg())
      modifies this`mem, this`regStack, this`regStackSet, this`registered, this`order, this`log
      ensures Valid() && Elems(done) <= ExactMatches(Reg(), k)
      ensures Run(r, St()) == VisitRun(old(St()), done)
      ensures r.Pass? ==> Distinct(done) && Elems(done) == ExactMatches(Reg(), k)
      ensures var list := if k in components then components[k] else [];
              |done| <= |list| && done == list[..|done|] && (r.Pass? ==> done == list)
    {
      ghost var s0 := St();
      var list := ComponentsOf(k);
      r := Pass;
      var j := 0;
      assert list[..0] == [];
      while j < |list| && r.Pass?
        invariant j <= |list| && Valid() && Reg() == s0.reg
        invariant list == if k in components then components[k] else []
        invariant Elems(list[..j]) <= ExactMatches(s0.reg, k)
        invariant VisitRun(s0, list[..j]) == Run(r, St())
        decreases |list| - j
      {
        PrefixNext(list, j);
        r := VisitOne(s0, list[..j], list[j]);
        j := j + 1;
      }
      done := list[..j];
      if r.Pass? {
        assert done == list;
      }
    }

    /** One component of phase one: wired unless it has completed. */
    method VisitOne(ghost s0: State, ghost prefix: seq<string>, n: string) returns (r: Outcome<Error>)
      requires Valid() && IndexValid(Reg()) && Reg() == s0.reg && Sound(s0)
      requires Elems(prefix) <= s0.reg.names.Keys && n in names
      requires VisitRun(s0, prefix) == Run(Pass, St())
      modifies this`mem, this`regStack, this`regStackSet, this`registered, this`order, this`log
      ensures Valid() && Reg() == s0.reg
      ensures VisitRun(s0, prefix + [n]) == Run(r, St())
    {
      ghost var before := St();
      r := Pass;
      if n !in registered {
        r := Process(n);
      }
      VisitNext(s0, prefix, n, before, Run(r, St()));
    }

    /** Phase two of the bring-up: the InitLast hook of every component,
        the types again in the registry's map order. */
    method CallInitLast() returns (ghost lastOrder: seq<string>)
      requires IndexValid(Reg())
      modifies this`log
      ensures Distinct(lastOrder) && Elems(lastOrder) == names.Keys
      ensures log == old(log) + InitLastEvents(Reg(), lastOrder)
    {
      ghost var reg := Reg();
      lastOrder := [];
      assert Elems<string>([]) == {};
      OutsideEnds(reg);
      var keys := components.Keys;
      while keys != {}
        invariant keys <= components.Keys && Reg() == reg
        invariant Distinct(lastOrder) && Elems(lastOrder) == ComponentsOutside(reg, keys)
        invariant log == old(log) + InitLastEvents(reg, lastOrder)
        decreases keys
      {
        var k :| k in keys;
        ghost var prev := log;
        ghost var list := InitLastType(k);
        VisitedStep(reg, keys, k, lastOrder, list);
        InitLastLogStep(reg, old(log), lastOrder, prev, list, log);
        lastOrder := lastOrder + list;
        keys := keys - {k};
      }
    }

    /** Phase two for the components of type k, in registration order. */
    method InitLastType(k: GoType) returns (ghost list: seq<string>)
      requires IndexValid(Reg())
      modifies this`log
      ensures list == ComponentsOf(k)
      ensures Distinct(list) && Elems(list) == ExactMatches(Reg(), k)
      ensures log == old(log) + InitLastEvents(Reg(), list)
    {
      var ns := ComponentsOf(k);
      var j := 0;
      while j < |ns|
        invariant j <= |ns| && ns == ComponentsOf(k)
        invariant log == old(log) + InitLastEvents(Reg(), ns[..j])
        decreases |ns| - j
      {
        var n := ns[j];
        InitLastSnoc(Reg(), ns, j);
        if names[n].ty in univ.withInitLast {
          log := log + [InitLast(n)];
        }
        j := j + 1;
      }
      assert ns[..j] == ns;
      list := ns;
    }
  }
}
