/** The resolver as a function of its state: what wiring one component,
    the fields of a component and one field do to the registry's object
    memory, the stack of components being wired, the completed set, the
    completion order and the hook log, and what they report when they
    fail. The engine's methods are proved to compute exactly these. */
module Resolver {
  import opened Base
  import opened Descriptors
  import Convert
  import opened Wiring

  /** The panics of the resolver, one per kind of failure. */
  datatype Error =
    | Cycle(comp: string, stack: seq<string>)
    | ValueMissing(comp: string, field: string, valueName: string)
    | NotConvertible(comp: string, field: string, valueName: string)
    | UnsupportedKind(comp: string, field: string)
    | NamedStringValue(comp: string, field: string, valueName: string)
    | NameNotRegistered(comp: string, field: string, target: string)
    | Ambiguous(comp: string, field: string)
    | NothingRegistered(comp: string, field: string)

  /** What to do with one field. */
  datatype Action =
    | Skip                   // no tag the resolver acts on
    | Write(v: FieldVal)     // a converted stored value
    | WireTo(d: string)      // a component, wired first if it has not completed

  /** The resolver's error for a failed conversion of value vn into field
      field of component n. */
  function ConvFailure(e: Convert.ConvError, n: string, field: string, vn: string): (err: Error)
    ensures !err.Cycle?
  {
    match e
    case NotConvertible => NotConvertible(n, field, vn)
    case UnsupportedKind => UnsupportedKind(n, field)
    case NamedString => NamedStringValue(n, field, vn)
  }

  /** What the resolver does with field f of component n, decided before
      anything is written: the `value` tag first (the stored value,
      converted to the field's type), then the component strategies of
      Resolve, each failure with its own error. */
  ghost function PlanOf(reg: Registry, n: string, f: Field): (a: Result<Action, Error>)
    ensures a.Err? ==> !a.error.Cycle?
    ensures a.Ok? && a.value.WireTo? ==> a.value.d in reg.names
  {
    if f.valueTag.Some? then
      var vn := f.valueTag.value;
      if vn !in reg.values then Err(ValueMissing(n, f.name, vn))
      else
        match Convert.ConvertValue(reg.univ, reg.values[vn], f.ty)
        case Ok(v) => Ok(Write(v))
        case Err(e) => Err(ConvFailure(e, n, f.name, vn))
    else
      match Resolve(reg, f)
      case Untouched => Ok(Skip)
      case Found(d) => Ok(WireTo(d))
      case UnknownName(x) => Err(NameNotRegistered(n, f.name, x))
      case ManyOfType => Err(Ambiguous(n, f.name))
      case NoneOfType => Err(NothingRegistered(n, f.name))
  }

  /** How a run of the resolver ended, and the state it left. */
  datatype Run = Run(out: Outcome<Error>, st: State)

  /** The invariant of the resolver's state: every component's object has
      its memory, with one slot per field; completed components are
      registered and not on the stack; the completion order lists each
      completed component once. */
  ghost predicate Sound(s: State) {
    // One let-bound conjunction: the verifier then takes the predicate as a
    // whole where it is used instead of splitting it into every conjunct.
    var ok :=
      (forall m :: m in s.reg.names ==> s.reg.names[m] in s.mem) &&
      (forall o :: o in s.mem ==> |s.mem[o]| == |o.layout|) &&
      s.done <= s.reg.names.Keys && s.done !! Elems(s.stack) &&
      Distinct(s.order) && Elems(s.order) == s.done;
    ok
  }

  /** Registering a new name for an object (with the object's initial
      contents when its memory does not exist yet) keeps the state sound. */
  lemma {:induction false} SoundRegister(s: State, s': State, name: string, o: Obj, init: seq<FieldVal>)
    requires Sound(s) && name !in s.reg.names && |init| == |o.layout|
    requires s'.reg.names == s.reg.names[name := o]
    requires s'.mem == (if o in s.mem then s.mem else s.mem[o := init])
    requires s'.stack == s.stack && s'.done == s.done && s'.order == s.order
    ensures Sound(s')
  {
  }

  /** Components neither completed nor being wired: what the recursion
      still has to go through. */
  ghost function Pending(s: State): set<string> {
    s.reg.names.Keys - s.done - Elems(s.stack)
  }

  /** Field i of o receives v. */
  ghost function Written(s: State, o: Obj, i: nat, v: FieldVal): (s': State)
    requires o in s.mem && i < |s.mem[o]|
    ensures Sound(s) ==> Sound(s')
  {
    s.(mem := s.mem[o := s.mem[o][i := v]])
  }

  /** Writing field i of o changes one cell of object memory, so every
      holder of a pointer to o sees it, and nothing else. */
  lemma {:induction false} WrittenFrame(s: State, o: Obj, i: nat, v: FieldVal)
    requires o in s.mem && i < |s.mem[o]|
    ensures var s' := Written(s, o, i, v);
            s' == s.(mem := s'.mem) && s'.mem.Keys == s.mem.Keys &&
            |s'.mem[o]| == |s.mem[o]| && s'.mem[o][i] == v &&
            (forall k :: 0 <= k < |s.mem[o]| && k != i ==> s'.mem[o][k] == s.mem[o][k]) &&
            (forall p :: p in s.mem && p != o ==> s'.mem[p] == s.mem[p])
  {
  }

  /** n, on top of the stack, leaves it and completes: it joins the
      completed set and the completion order, and its Init call is logged. */
  ghost function Completed(s: State, n: string): (c: State)
    requires s.stack != []
    ensures c.reg == s.reg && c.mem == s.mem && s.stack == c.stack + [s.stack[|s.stack| - 1]]
    ensures n in c.done && c.done - {n} == s.done - {n}
    ensures |c.order| == |s.order| + 1 && c.order[..|s.order|] == s.order && c.order[|s.order|..] == [n]
    ensures |c.log| >= |s.log| && c.log[..|s.log|] == s.log && c.log[|s.log|..] == InitOf(s.reg, n)
  {
    s.(stack := s.stack[..|s.stack| - 1], done := s.done + {n},
       order := s.order + [n], log := s.log + InitOf(s.reg, n))
  }

  /** Popping the stack keeps the state sound. */
  lemma {:induction false} PopSound(s: State, below: seq<string>, n: string)
    requires Sound(s) && s.stack == below + [n]
    ensures Sound(s.(stack := below))
  {
    ElemsAppend(below, [n]);
  }

  /** Completing the component on top of the stack keeps the state sound. */
  lemma {:induction false} CompletedSound(s: State, below: seq<string>, n: string)
    requires Sound(s) && s.stack == below + [n] && n !in below && n in s.reg.names
    ensures Sound(Completed(s, n)) && Completed(s, n).stack == below
  {
    assert s.stack[..|s.stack| - 1] == below;
    ElemsAppend(below, [n]);
    DistinctOne(n);
    DistinctAppend(s.order, [n]);
    ElemsAppend(s.order, [n]);
  }

  /** Wiring component n: a cycle when n is already being wired; otherwise
      n is pushed, its fields are wired in order when it is a struct, and
      it completes. */
  ghost function ProcessRun(s: State, n: string): (res: Run)
    requires Sound(s) && n in s.reg.names && n !in s.done
    decreases Pending(s), 0
    ensures Sound(res.st) && res.st.reg == s.reg
    ensures res.out.Pass? ==> res.st.stack == s.stack && s.done <= res.st.done && n in res.st.done
  {
    if n in s.stack then Run(Fail(Cycle(n, s.stack)), s)
    else
      var s1 := s.(stack := s.stack + [n]);
      assert Pending(s1) < Pending(s) by {
        ElemsAppend(s.stack, [n]);
        assert n in Pending(s) && Pending(s1) == Pending(s) - {n};
      }
      var wired := if s.reg.names[n].ty.kind == StructKind then FieldsRun(s1, n, 0) else Run(Pass, s1);
      if wired.out.Fail? then wired
      else
        CompletedSound(wired.st, s.stack, n);
        Run(Pass, Completed(wired.st, n))
  }

  /** FieldRun for a field wired to d once d has been wired (or found
      completed) with result w: a failure is passed on, and on success the
      field receives d's pointer or a copy of d. */
  lemma {:induction false} FieldDep(s: State, n: string, i: nat, d: string, w: Run)
    requires AtField(s, n, i) && i < |s.reg.names[n].layout|
    requires PlanOf(s.reg, n, s.reg.names[n].layout[i]) == Ok(WireTo(d))
    requires w == if d in s.done then Run(Pass, s) else ProcessRun(s, d)
    ensures w.out.Fail? ==> FieldRun(s, n, i) == w
    ensures w.out.Pass? ==>
              var o, target := s.reg.names[n], s.reg.names[d];
              o in w.st.mem && target in w.st.mem && i < |w.st.mem[o]| &&
              FieldRun(s, n, i) ==
                Run(Pass, Written(w.st, o, i, if o.layout[i].ty.isPointer then RefV(target) else CopyV(w.st.mem[target])))
  {
    var o, f := s.reg.names[n], s.reg.names[n].layout[i];
    assert PlanOf(s.reg, n, f) == Ok(WireTo(d));
    assert Sound(w.st) && w.st.reg == s.reg;
    assert FieldRun(s, n, i) == WiredTo(w, o, i, f.ty.isPointer, s.reg.names[d]);
  }

  /** s with n pushed on the stack. */
  ghost function Pushed(s: State, n: string): (s1: State)
    requires Sound(s) && n in s.reg.names && n !in s.done && n !in s.stack
    ensures AtField(s1, n, 0) && s1 == s.(stack := s.stack + [n])
  {
    ElemsAppend(s.stack, [n]);
    s.(stack := s.stack + [n])
  }

  /** ProcessRun once n has been pushed and its fields (if any) wired into
      w: a failure is passed on, and on success n leaves the stack and
      completes. */
  lemma {:induction false} ProcessWired(s: State, n: string, w: Run)
    requires Sound(s) && n in s.reg.names && n !in s.done && n !in s.stack
    requires w == if s.reg.names[n].ty.kind == StructKind then FieldsRun(Pushed(s, n), n, 0) else Run(Pass, Pushed(s, n))
    ensures w.out.Fail? ==> ProcessRun(s, n) == w
    ensures w.out.Pass? ==> w.st.stack == s.stack + [n] && ProcessRun(s, n) == Run(Pass, Completed(w.st, n))
  {
  }

  /** n is being wired in s, and i is one of its field positions or the
      position after the last. */
  ghost predicate AtField(s: State, n: string, i: nat) {
    // One let-bound conjunction: the verifier then takes the predicate as a
    // whole where it is used instead of splitting it into every conjunct.
    var ok := Sound(s) && n in s.reg.names && n in s.stack && i <= |s.reg.names[n].layout|;
    ok
  }

  /** Fields i, i + 1, ... of component n, n being on the stack; stops at
      the first failure. */
  ghost function FieldsRun(s: State, n: string, i: nat): (res: Run)
    requires AtField(s, n, i)
    decreases Pending(s), 2, |s.reg.names[n].layout| - i
    ensures Sound(res.st) && res.st.reg == s.reg
    ensures res.out.Pass? ==> res.st.stack == s.stack && s.done <= res.st.done
  {
    if i == |s.reg.names[n].layout| then Run(Pass, s)
    else
      var step := FieldRun(s, n, i);
      if step.out.Fail? then step else FieldsRun(step.st, n, i + 1)
  }

  /** One step of FieldsRun: done after the last field, stopped by a
      failing field, and otherwise on to the next field. */
  lemma {:induction false} FieldsRunStep(s: State, n: string, i: nat)
    requires AtField(s, n, i)
    ensures i == |s.reg.names[n].layout| ==> FieldsRun(s, n, i) == Run(Pass, s)
    ensures i < |s.reg.names[n].layout| && FieldRun(s, n, i).out.Fail? ==> FieldsRun(s, n, i) == FieldRun(s, n, i)
    ensures i < |s.reg.names[n].layout| && FieldRun(s, n, i).out.Pass? ==>
              FieldsRun(s, n, i) == FieldsRun(FieldRun(s, n, i).st, n, i + 1)
  {
  }

  /** Field i of component n: per its plan, left alone, given the converted
      value, or given the pointer to (or a copy of) the component it is
      wired to, which is wired first when it has not completed. */
  ghost function FieldRun(s: State, n: string, i: nat): (res: Run)
    requires AtField(s, n, i) && i < |s.reg.names[n].layout|
    decreases Pending(s), 1
    ensures Sound(res.st) && res.st.reg == s.reg
    ensures res.out.Pass? ==> res.st.stack == s.stack && s.done <= res.st.done
  {
    var o := s.reg.names[n];
    var f := o.layout[i];
    match PlanOf(s.reg, n, f)
    case Err(e) => Run(Fail(e), s)
    case Ok(Skip) => Run(Pass, s)
    case Ok(Write(v)) => Run(Pass, Written(s, o, i, v))
    case Ok(WireTo(d)) =>
      var dep := if d in s.done then Run(Pass, s) else ProcessRun(s, d);
      WiredTo(dep, o, i, f.ty.isPointer, s.reg.names[d])
  }

  /** Field i of o after the wiring of its target ended with dep: a
      failure is passed on, and on success the field receives the target's
      pointer (ptr) or a copy of it. */
  ghost function WiredTo(dep: Run, o: Obj, i: nat, ptr: bool, target: Obj): (r: Run)
    requires Sound(dep.st) && o in dep.st.mem && target in dep.st.mem && i < |o.layout|
    ensures Sound(r.st) && r.out == dep.out && r.st == dep.st.(mem := r.st.mem)
  {
    if dep.out.Fail? then dep
    else Run(Pass, Written(dep.st, o, i, if ptr then RefV(target) else CopyV(dep.st.mem[target])))
  }

  /** Writing an expected value into one field evolves object memory. */
  lemma {:induction false} WriteEvolves(reg: Registry, h: Heap, o: Obj, i: nat, v: FieldVal)
    requires o in h && i < |h[o]| == |o.layout|
    requires Expected(reg, o, i, v)
    ensures EvolvedAll(reg, h, h[o := h[o][i := v]])
  {
    var h' := h[o := h[o][i := v]];
    forall p | p in h ensures Evolved(reg, p, h[p], h'[p]) {
      if p == o {
        forall k | 0 <= k < |h'[p]| && k < |p.layout| ensures h'[p][k] == h[p][k] || Expected(reg, p, k, h'[p][k]) {
        }
      }
    }
  }

  /** What wiring component n achieves. On success n has completed, the
      stack is back as it was and the state has advanced: completed
      components stay completed, fields only ever receive their expected
      values, every newly completed component completed after its
      dependencies and is fully wired, and the log grew by exactly their
      Init calls, in completion order. (What a failure reports is the
      subject of module Cycles.) */
  lemma {:induction false} ProcessProgress(s: State, n: string)
    requires Sound(s) && n in s.reg.names && n !in s.done
    decreases Pending(s), 0
    ensures ProcessRun(s, n).out.Pass? ==> Advanced(s, ProcessRun(s, n).st)
  {
    if n !in s.stack {
      var s1 := s.(stack := s.stack + [n]);
      assert Pending(s1) < Pending(s) by {
        ElemsAppend(s.stack, [n]);
        assert n in Pending(s) && Pending(s1) == Pending(s) - {n};
      }
      AdvancedRefl(s);
      assert Advanced(s, s1);
      var o := s.reg.names[n];
      if o.ty.kind == StructKind {
        FieldsProgress(s1, n, 0);
        var w := FieldsRun(s1, n, 0);
        if w.out.Pass? {
          AdvancedTrans(s, s1, w.st);
          CompleteStep(s, w.st, n);
        }
      } else {
        CompleteStep(s, s1, n);
      }
    }
  }

  /** Completing n once its fields are wired and its dependencies have
      completed keeps the progress made. */
  lemma {:induction false} CompleteStep(s0: State, s1: State, n: string)
    requires Advanced(s0, s1) && Sound(s1) && s1.stack != []
    requires n in s1.reg.names && Deps(s1.reg, n) <= s1.done
    requires WiredFields(s1.reg, s1.reg.names[n], s1.mem[s1.reg.names[n]])
    ensures Advanced(s0, Completed(s1, n))
  {
    ProgressStep(s0.reg, s0.order, s0.log, s1.order, s1.log, n);
    WiredAdd(s0.reg, s1.mem, s0.done, s1.done, n);
  }

  /** The first i fields of o hold their expected values and the
      components they are wired to have completed. */
  ghost predicate FieldsWired(s: State, o: Obj, i: nat)
    requires o in s.mem && i <= |o.layout|
  {
    // One let-bound conjunction: the verifier then takes the predicate as a
    // whole where it is used instead of splitting it into every conjunct.
    var ok := DepsUpTo(s.reg, o.layout, i) <= s.done && WiredUpTo(s.reg, o, s.mem[o], i);
    ok
  }

  /** Fields i, i + 1, ... of n, given that the first i are wired: on
      success all the fields are wired, all the dependencies have completed
      and the state has advanced. */
  lemma {:induction false} FieldsProgress(s: State, n: string, i: nat)
    requires AtField(s, n, i)
    requires FieldsWired(s, s.reg.names[n], i)
    decreases Pending(s), 4, |s.reg.names[n].layout| - i, 2
    ensures FieldsRun(s, n, i).out.Pass? ==>
              Advanced(s, FieldsRun(s, n, i).st) &&
              FieldsWired(FieldsRun(s, n, i).st, s.reg.names[n], |s.reg.names[n].layout|)
  {
    if i == |s.reg.names[n].layout| {
      FieldsRunStep(s, n, i);
      AdvancedRefl(s);
    } else {
      FieldsProgressStep(s, n, i);
    }
  }

  /** The inductive step of FieldsProgress: field i, then the rest. */
  lemma {:induction false} FieldsProgressStep(s: State, n: string, i: nat)
    requires AtField(s, n, i) && i < |s.reg.names[n].layout|
    requires FieldsWired(s, s.reg.names[n], i)
    decreases Pending(s), 4, |s.reg.names[n].layout| - i, 1
    ensures FieldsRun(s, n, i).out.Pass? ==>
              Advanced(s, FieldsRun(s, n, i).st) &&
              FieldsWired(FieldsRun(s, n, i).st, s.reg.names[n], |s.reg.names[n].layout|)
  {
    FieldsRunStep(s, n, i);
    FieldStep(s, n, i);
    if FieldRun(s, n, i).out.Pass? {
      FieldsTail(s, n, i, FieldRun(s, n, i).st);
    }
  }

  /** The rest of the fields after field i has been wired into s1. */
  lemma {:induction false} FieldsTail(s: State, n: string, i: nat, s1: State)
    requires AtField(s, n, i) && i < |s.reg.names[n].layout|
    requires FieldRun(s, n, i) == Run(Pass, s1)
    requires Advanced(s, s1) && FieldsWired(s1, s.reg.names[n], i + 1)
    decreases Pending(s), 4, |s.reg.names[n].layout| - i, 0
    ensures FieldsRun(s, n, i).out.Pass? ==>
              Advanced(s, FieldsRun(s, n, i).st) &&
              FieldsWired(FieldsRun(s, n, i).st, s.reg.names[n], |s.reg.names[n].layout|)
  {
    var o := s.reg.names[n];
    FieldsRunStep(s, n, i);
    assert s1.reg.names[n] == o;
    FieldsProgress(s1, n, i + 1);
    FieldsJoin(s, s1, FieldsRun(s1, n, i + 1), o);
  }

  /** Field i of n after the first i are wired: on success the first i + 1
      are wired and the state has advanced. */
  lemma {:induction false} FieldStep(s: State, n: string, i: nat)
    requires AtField(s, n, i) && i < |s.reg.names[n].layout|
    requires FieldsWired(s, s.reg.names[n], i)
    decreases Pending(s), 3
    ensures FieldRun(s, n, i).out.Pass? ==>
              Advanced(s, FieldRun(s, n, i).st) && FieldsWired(FieldRun(s, n, i).st, s.reg.names[n], i + 1)
  {
    FieldProgress(s, n, i);
    if FieldRun(s, n, i).out.Pass? {
      FieldsWiredNext(s, FieldRun(s, n, i).st, s.reg.names[n], i);
    }
  }

  /** A field step that advanced the state and wired field i extends the
      wired prefix by one field. */
  lemma {:induction false} FieldsWiredNext(s: State, s1: State, o: Obj, i: nat)
    requires o in s.mem && o in s1.mem && i < |o.layout| == |s1.mem[o]| && FieldsWired(s, o, i)
    requires Advanced(s, s1)
    requires DepsUpTo(s.reg, o.layout, i + 1) <= s1.done
    requires Bound(o.layout[i]) ==> Expected(s.reg, o, i, s1.mem[o][i])
    ensures FieldsWired(s1, o, i + 1)
  {
    assert Evolved(s.reg, o, s.mem[o], s1.mem[o]);
    WiredUpToStep(s.reg, o, s.mem[o], s1.mem[o], i);
  }

  /** The progress of one field step followed by the progress of the rest. */
  lemma {:induction false} FieldsJoin(s: State, s1: State, rest: Run, o: Obj)
    requires Advanced(s, s1) && s1.stack == s.stack
    requires rest.out.Pass? ==> Advanced(s1, rest.st)
    ensures rest.out.Pass? ==> Advanced(s, rest.st)
  {
    if rest.out.Pass? {
      AdvancedTrans(s, s1, rest.st);
    }
  }

  /** Field i of n, given that the dependencies of the fields before it
      have completed: on success the field holds its expected value (when
      it has a tag), its dependency has completed and the state has
      advanced. */
  lemma {:induction false} FieldProgress(s: State, n: string, i: nat)
    requires AtField(s, n, i) && i < |s.reg.names[n].layout|
    requires DepsUpTo(s.reg, s.reg.names[n].layout, i) <= s.done
    decreases Pending(s), 2
    ensures FieldRun(s, n, i).out.Pass? ==>
              var s' := FieldRun(s, n, i).st;
              var o := s.reg.names[n];
              Advanced(s, s') && DepsUpTo(s.reg, o.layout, i + 1) <= s'.done &&
              (Bound(o.layout[i]) ==> Expected(s.reg, o, i, s'.mem[o][i]))
  {
    var o := s.reg.names[n];
    var f := o.layout[i];
    match PlanOf(s.reg, n, f)
    case Err(e) =>
      assert FieldRun(s, n, i) == Run(Fail(e), s);
    case Ok(Skip) =>
      PlanSkip(s.reg, n, o, i);
      assert FieldRun(s, n, i) == Run(Pass, s);
      AdvancedRefl(s);
    case Ok(Write(v)) =>
      PlanWrite(s.reg, n, o, i, v);
      assert FieldRun(s, n, i) == Run(Pass, Written(s, o, i, v));
      FieldWritten(s, s, o, i, v);
    case Ok(WireTo(d)) =>
      FieldWireProgress(s, n, i, d);
  }

  /** A field the plan leaves alone has no tag and no dependency. */
  lemma {:induction false} PlanSkip(reg: Registry, n: string, o: Obj, i: nat)
    requires i < |o.layout| && PlanOf(reg, n, o.layout[i]) == Ok(Skip)
    ensures !Bound(o.layout[i]) && DepsUpTo(reg, o.layout, i + 1) == DepsUpTo(reg, o.layout, i)
  {
  }

  /** A field the plan writes a converted value into has that value as its
      expected one and no dependency. */
  lemma {:induction false} PlanWrite(reg: Registry, n: string, o: Obj, i: nat, v: FieldVal)
    requires i < |o.layout| && PlanOf(reg, n, o.layout[i]) == Ok(Write(v))
    ensures Expected(reg, o, i, v) && DepsUpTo(reg, o.layout, i + 1) == DepsUpTo(reg, o.layout, i)
  {
  }

  /** A field the plan wires to d depends on d and expects d's pointer, or
      for a non-pointer field a copy. */
  lemma {:induction false} PlanWire(reg: Registry, n: string, o: Obj, i: nat, d: string, v: FieldVal)
    requires i < |o.layout| && PlanOf(reg, n, o.layout[i]) == Ok(WireTo(d))
    requires if o.layout[i].ty.isPointer then d in reg.names && v == RefV(reg.names[d]) else v.CopyV?
    ensures Expected(reg, o, i, v) && DepsUpTo(reg, o.layout, i + 1) == DepsUpTo(reg, o.layout, i) + {d}
  {
  }

  /** Writing field i of o with its expected value, after progress from s0
      to s, is more progress. */
  lemma {:induction false} FieldWritten(s0: State, s: State, o: Obj, i: nat, v: FieldVal)
    requires Advanced(s0, s) && Sound(s) && o in s.mem && i < |o.layout|
    requires Expected(s.reg, o, i, v)
    ensures Advanced(s0, Written(s, o, i, v)) && Written(s, o, i, v).mem[o][i] == v
  {
    WriteEvolves(s.reg, s.mem, o, i, v);
    AdvancedWrite(s0, s, Written(s, o, i, v).mem);
  }

  /** Field i of n wired to d: d is wired first unless it has completed,
      then the field receives d's pointer or a copy of d. */
  lemma {:induction false} FieldWireProgress(s: State, n: string, i: nat, d: string)
    requires AtField(s, n, i) && i < |s.reg.names[n].layout|
    requires DepsUpTo(s.reg, s.reg.names[n].layout, i) <= s.done
    requires PlanOf(s.reg, n, s.reg.names[n].layout[i]) == Ok(WireTo(d))
    decreases Pending(s), 1
    ensures FieldRun(s, n, i).out.Pass? ==>
              var s' := FieldRun(s, n, i).st;
              var o := s.reg.names[n];
              Advanced(s, s') && DepsUpTo(s.reg, o.layout, i + 1) <= s'.done &&
              Expected(s.reg, o, i, s'.mem[o][i])
  {
    var o := s.reg.names[n];
    var f := o.layout[i];
    var w := if d in s.done then Run(Pass, s) else ProcessRun(s, d);
    if d in s.done {
      AdvancedRefl(s);
    } else {
      ProcessProgress(s, d);
    }
    if w.out.Pass? {
      var target := s.reg.names[d];
      var v := if f.ty.isPointer then RefV(target) else CopyV(w.st.mem[target]);
      assert FieldRun(s, n, i) == Run(Pass, Written(w.st, o, i, v));
      PlanWire(s.reg, n, o, i, d, v);
      FieldWritten(s, w.st, o, i, v);
    } else {
      assert FieldRun(s, n, i) == w;
    }
  }

  /** Phase one of the bring-up: the components in ns, in that order, each
      wired unless it has completed by then; stops at the first failure. */
  ghost function VisitRun(s: State, ns: seq<string>): (res: Run)
    requires Sound(s) && Elems(ns) <= s.reg.names.Keys
    decreases |ns|
    ensures Sound(res.st) && res.st.reg == s.reg
    ensures res.out.Pass? ==> res.st.stack == s.stack
  {
    if ns == [] then Run(Pass, s)
    else
      var init, n := ns[..|ns| - 1], ns[|ns| - 1];
      SnocElems(ns);
      var p := VisitRun(s, init);
      if p.out.Fail? || n in p.st.done then p else ProcessRun(p.st, n)
  }

  lemma {:induction false} SnocElems(ns: seq<string>)
    requires ns != []
    ensures Elems(ns) == Elems(ns[..|ns| - 1]) + {ns[|ns| - 1]}
  {
    assert ns == ns[..|ns| - 1] + [ns[|ns| - 1]];
    ElemsAppend(ns[..|ns| - 1], [ns[|ns| - 1]]);
    DistinctOne(ns[|ns| - 1]);
  }

  /** Visiting one more component after a successful visit of ns. */
  lemma {:induction false} VisitNext(s: State, ns: seq<string>, n: string, p: State, q: Run)
    requires Sound(s) && Elems(ns) <= s.reg.names.Keys && n in s.reg.names
    requires VisitRun(s, ns) == Run(Pass, p)
    requires q == if n in p.done then Run(Pass, p) else ProcessRun(p, n)
    ensures Elems(ns + [n]) <= s.reg.names.Keys
    ensures VisitRun(s, ns + [n]) == q
  {
    ElemsAppend(ns, [n]);
    DistinctOne(n);
    var ns' := ns + [n];
    assert ns'[..|ns'| - 1] == ns && ns'[|ns'| - 1] == n;
  }

  /** A successful visit of every component completes all of them. */
  lemma {:induction false} VisitAll(s: State, ns: seq<string>)
    requires Sound(s) && Elems(ns) == s.reg.names.Keys
    ensures VisitRun(s, ns).out.Pass? ==> VisitRun(s, ns).st.done == s.reg.names.Keys
  {
    VisitProgress(s, ns);
  }

  /** The value store plays no part in soundness or in the type index. */
  lemma {:induction false} StoreIndependent(s: State, store: map<string, Val>)
    requires Sound(s) && IndexValid(s.reg)
    ensures Sound(s.(reg := s.reg.(values := store))) && IndexValid(s.reg.(values := store))
  {
  }

  /** The hook log plays no part in soundness. */
  lemma {:induction false} SoundLog(s: State, log: seq<Event>)
    requires Sound(s)
    ensures Sound(s.(log := log))
  {
  }

  /** Visiting a and then b: b is visited from where a left off, unless a
      failed. */
  lemma {:induction false} VisitRunAppend(s: State, a: seq<string>, b: seq<string>)
    requires Sound(s) && Elems(a) <= s.reg.names.Keys && Elems(b) <= s.reg.names.Keys
    decreases |b|
    ensures Elems(a + b) <= s.reg.names.Keys
    ensures VisitRun(s, a + b) ==
              if VisitRun(s, a).out.Fail? then VisitRun(s, a) else VisitRun(VisitRun(s, a).st, b)
  {
    ElemsAppend(a, b);
    if b == [] {
      assert a + b == a;
    } else {
      var b' := b[..|b| - 1];
      assert (a + b)[..|a + b| - 1] == a + b';
      assert (a + b)[|a + b| - 1] == b[|b| - 1];
      SnocElems(b);
      SnocElems(a + b);
      VisitRunAppend(s, a, b');
    }
  }

  /** What phase one achieves: on success every visited component has
      completed and the state has advanced. */
  lemma {:induction false} VisitProgress(s: State, ns: seq<string>)
    requires Sound(s) && Elems(ns) <= s.reg.names.Keys
    decreases |ns|
    ensures VisitRun(s, ns).out.Pass? ==> Elems(ns) <= VisitRun(s, ns).st.done && Advanced(s, VisitRun(s, ns).st)
  {
    if ns == [] {
      AdvancedRefl(s);
    } else {
      var init, n := ns[..|ns| - 1], ns[|ns| - 1];
      SnocElems(ns);
      VisitProgress(s, init);
      var p := VisitRun(s, init);
      if p.out.Fail? || n in p.st.done {
        assert VisitRun(s, ns) == p;
      } else {
        ProcessProgress(p.st, n);
        var q := ProcessRun(p.st, n);
        assert VisitRun(s, ns) == q;
        if q.out.Pass? {
          AdvancedTrans(s, p.st, q.st);
        }
      }
    }
  }

  /** The bring-up from a fresh state, visiting every registered component:
      on success every component has completed exactly once, each after the
      components its fields are wired to, every tagged field holds its
      expected value, and the hook log is exactly the Init calls in
      completion order. */
  lemma {:induction false} BringUp(s: State, ns: seq<string>)
    requires Sound(s) && Elems(ns) == s.reg.names.Keys
    requires s.done == {} && s.order == [] && s.log == []
    ensures var res := VisitRun(s, ns);
            res.out.Pass? ==>
              res.st.done == s.reg.names.Keys &&
              Distinct(res.st.order) && Elems(res.st.order) == s.reg.names.Keys &&
              Topo(s.reg, res.st.order, 0) &&
              res.st.log == InitEvents(s.reg, res.st.order) &&
              Wired(s.reg, res.st.mem, s.reg.names.Keys)
  {
    VisitProgress(s, ns);
    var res := VisitRun(s, ns);
    if res.out.Pass? {
      FromScratch(s, res.st);
    }
  }

  /** A sound state that has advanced from one where nothing has completed
      to one where every component has. */
  lemma {:induction false} FromScratch(s: State, t: State)
    requires Sound(t) && Advanced(s, t) && t.done == s.reg.names.Keys
    requires s.done == {} && s.order == [] && s.log == []
    ensures Distinct(t.order) && Elems(t.order) == s.reg.names.Keys
    ensures Topo(s.reg, t.order, 0) && t.log == InitEvents(s.reg, t.order)
    ensures Wired(s.reg, t.mem, s.reg.names.Keys)
  {
    assert t.order[0..] == t.order;
    assert t.done - s.done == t.done;
  }
}
