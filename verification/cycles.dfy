/** Cycles in the dependency graph and what the bring-up reports about
    them. A component depends on the components its fields are wired to
    (Wiring.Deps). A cycle error carries the stack of components being
    wired; its part from where the failing wiring began, followed by the
    component found on the stack, is a chain of dependencies. So the
    bring-up from an empty stack fails with a cycle error only on a real
    dependency cycle, succeeds only when there is none, and, when every
    field of every struct component resolves, succeeds exactly when there
    is none. */
module Cycles {
  import opened Base
  import opened Descriptors
  import opened Wiring
  import opened Resolver

  /** Each component of xs after the first is a dependency of the one
      before it. */
  ghost predicate Linked(reg: Registry, xs: seq<string>) {
    forall j :: 0 <= j < |xs| - 1 ==> xs[j] in reg.names && xs[j + 1] in Deps(reg, xs[j])
  }

  /** A chain of dependencies that comes back to where it started. */
  ghost predicate DepCycle(reg: Registry, xs: seq<string>) {
    |xs| >= 2 && xs[0] == xs[|xs| - 1] && Linked(reg, xs)
  }

  ghost predicate Acyclic(reg: Registry) {
    forall xs :: !DepCycle(reg, xs)
  }

  /** Every field of every struct component has a plan: each `value` tag
      names a stored value that converts, and each `name` or `wire` tag
      resolves to exactly one component. */
  ghost predicate PlansOk(reg: Registry) {
    forall m, i :: m in reg.names && reg.names[m].ty.kind == StructKind && 0 <= i < |reg.names[m].layout| ==>
      PlanOf(reg, m, reg.names[m].layout[i]).Ok?
  }

  /** The path a cycle error reports, from the component whose wiring began
      above the stack `below`: the stack from that point on, followed by
      the component that was found on it. */
  ghost function CyclePath(below: seq<string>, e: Error): (p: seq<string>)
    requires e.Cycle? && below <= e.stack
    ensures |p| == |e.stack| - |below| + 1 && p[|p| - 1] == e.comp
  {
    e.stack[|below|..] + [e.comp]
  }

  /** What a failure of a wiring begun above the stack `below` reports:
      a cycle error's stack extends below, names a component on it, and its
      path is a chain of dependencies; when every field has a plan, every
      failure is a cycle error. */
  ghost predicate Explained(reg: Registry, below: seq<string>, r: Outcome<Error>) {
    r.Fail? ==>
      (PlansOk(reg) ==> r.error.Cycle?) &&
      (r.error.Cycle? ==>
         r.error.comp in r.error.stack && below <= r.error.stack && Linked(reg, CyclePath(below, r.error)))
  }

  /** A cycle error from the wiring of n starts its path at n. */
  ghost predicate StartsAt(below: seq<string>, n: string, r: Outcome<Error>) {
    r.Fail? && r.error.Cycle? && below <= r.error.stack ==> CyclePath(below, r.error)[0] == n
  }

  /** The dependencies of a struct component include every component one
      of its fields is wired to. */
  lemma {:induction false} DepOfField(reg: Registry, n: string, i: nat, d: string)
    requires n in reg.names && reg.names[n].ty.kind == StructKind && i < |reg.names[n].layout|
    requires PlanOf(reg, n, reg.names[n].layout[i]) == Ok(WireTo(d))
    ensures d in Deps(reg, n)
  {
    var o := reg.names[n];
    var v := if o.layout[i].ty.isPointer then RefV(reg.names[d]) else CopyV([]);
    PlanWire(reg, n, o, i, d, v);
    DepsMonotone(reg, o.layout, i + 1, |o.layout|);
  }

  lemma {:induction false} DepsMonotone(reg: Registry, layout: seq<Field>, a: nat, b: nat)
    requires a <= b <= |layout|
    decreases b - a
    ensures DepsUpTo(reg, layout, a) <= DepsUpTo(reg, layout, b)
  {
    if a < b {
      DepsMonotone(reg, layout, a, b - 1);
    }
  }

  /** A chain from a dependency of n, with n put in front. */
  lemma {:induction false} LinkedCons(reg: Registry, n: string, p: seq<string>)
    requires n in reg.names && p != [] && p[0] in Deps(reg, n) && Linked(reg, p)
    ensures Linked(reg, [n] + p)
  {
    var q := [n] + p;
    forall j | 0 <= j < |q| - 1 ensures q[j] in reg.names && q[j + 1] in Deps(reg, q[j]) {
      if j > 0 {
        assert q[j] == p[j - 1] && q[j + 1] == p[j];
      }
    }
  }

  /** The part of a chain from position k on is a chain. */
  lemma {:induction false} LinkedSuffix(reg: Registry, xs: seq<string>, k: nat)
    requires Linked(reg, xs) && k <= |xs|
    ensures Linked(reg, xs[k..])
  {
    var q := xs[k..];
    forall j | 0 <= j < |q| - 1 ensures q[j] in reg.names && q[j + 1] in Deps(reg, q[j]) {
      assert q[j] == xs[k + j] && q[j + 1] == xs[k + j + 1];
    }
  }

  /** A cycle error raised one level further up: the path from below
      starts with the component pushed on top of below. */
  lemma {:induction false} PathPush(below: seq<string>, n: string, e: Error)
    requires e.Cycle? && below + [n] <= e.stack
    ensures below <= e.stack && CyclePath(below, e) == [n] + CyclePath(below + [n], e)
  {
    assert e.stack[|below|..] == [n] + e.stack[|below| + 1..];
  }

  /** What wiring n reports when it fails. */
  lemma {:induction false} ProcessFailure(s: State, n: string)
    requires Sound(s) && n in s.reg.names && n !in s.done
    decreases Pending(s), 0
    ensures Explained(s.reg, s.stack, ProcessRun(s, n).out)
    ensures StartsAt(s.stack, n, ProcessRun(s, n).out)
  {
    if n in s.stack {
      assert ProcessRun(s, n) == Run(Fail(Cycle(n, s.stack)), s);
      assert CyclePath(s.stack, Cycle(n, s.stack)) == [n];
    } else {
      var s1 := Pushed(s, n);
      assert Pending(s1) < Pending(s) by {
        ElemsAppend(s.stack, [n]);
        assert n in Pending(s) && Pending(s1) == Pending(s) - {n};
      }
      if s.reg.names[n].ty.kind == StructKind {
        var w := FieldsRun(s1, n, 0);
        ProcessWired(s, n, w);
        FieldsFailure(s1, s.stack, n, 0);
        if w.out.Fail? && w.out.error.Cycle? {
          PathPush(s.stack, n, w.out.error);
        }
      } else {
        ProcessWired(s, n, Run(Pass, s1));
      }
    }
  }

  /** What the fields of n, from field i on, report when they fail; n is on
      top of the stack, above below. */
  lemma {:induction false} FieldsFailure(s: State, below: seq<string>, n: string, i: nat)
    requires AtField(s, n, i) && s.reg.names[n].ty.kind == StructKind && s.stack == below + [n]
    decreases Pending(s), 2, |s.reg.names[n].layout| - i, 1
    ensures Explained(s.reg, below, FieldsRun(s, n, i).out) && StartsAt(below, n, FieldsRun(s, n, i).out)
  {
    FieldsRunStep(s, n, i);
    if i < |s.reg.names[n].layout| {
      FieldFailure(s, below, n, i);
      var step := FieldRun(s, n, i);
      if step.out.Pass? {
        FieldsRest(s, below, n, i, step.st);
      }
    }
  }

  /** The fields after field i, once field i has been wired into s1. */
  lemma {:induction false} FieldsRest(s: State, below: seq<string>, n: string, i: nat, s1: State)
    requires AtField(s, n, i) && s.reg.names[n].ty.kind == StructKind && s.stack == below + [n]
    requires i < |s.reg.names[n].layout| && FieldRun(s, n, i) == Run(Pass, s1)
    decreases Pending(s), 2, |s.reg.names[n].layout| - i, 0
    ensures Explained(s.reg, below, FieldsRun(s, n, i).out) && StartsAt(below, n, FieldsRun(s, n, i).out)
  {
    FieldsRunStep(s, n, i);
    assert s1.reg.names[n] == s.reg.names[n];
    FieldsFailure(s1, below, n, i + 1);
  }

  /** What field i of n reports when it fails; n is on top of the stack,
      above below. */
  lemma {:induction false} FieldFailure(s: State, below: seq<string>, n: string, i: nat)
    requires AtField(s, n, i) && i < |s.reg.names[n].layout| && s.reg.names[n].ty.kind == StructKind
    requires s.stack == below + [n]
    decreases Pending(s), 1
    ensures Explained(s.reg, below, FieldRun(s, n, i).out) && StartsAt(below, n, FieldRun(s, n, i).out)
  {
    var o := s.reg.names[n];
    match PlanOf(s.reg, n, o.layout[i])
    case Err(e) =>
      assert FieldRun(s, n, i) == Run(Fail(e), s);
    case Ok(Skip) =>
      assert FieldRun(s, n, i).out == Pass;
    case Ok(Write(v)) =>
      assert FieldRun(s, n, i).out == Pass;
    case Ok(WireTo(d)) =>
      var w := if d in s.done then Run(Pass, s) else ProcessRun(s, d);
      FieldDep(s, n, i, d, w);
      if w.out.Fail? {
        ProcessFailure(s, d);
        DepOfField(s.reg, n, i, d);
        WiredDepFailure(s.reg, below, n, d, w.out);
      }
  }

  /** A failure of the wiring of d, a dependency of n, begun with n on top
      of below: explained from below, with a path that starts at n. */
  lemma {:induction false} WiredDepFailure(reg: Registry, below: seq<string>, n: string, d: string, r: Outcome<Error>)
    requires n in reg.names && d in Deps(reg, n)
    requires Explained(reg, below + [n], r) && StartsAt(below + [n], d, r)
    ensures Explained(reg, below, r) && StartsAt(below, n, r)
  {
    if r.Fail? && r.error.Cycle? {
      PathPush(below, n, r.error);
      LinkedCons(reg, n, CyclePath(below + [n], r.error));
    }
  }

  /** What phase one reports when it fails. */
  lemma {:induction false} VisitFailure(s: State, ns: seq<string>)
    requires Sound(s) && Elems(ns) <= s.reg.names.Keys
    decreases |ns|
    ensures Explained(s.reg, s.stack, VisitRun(s, ns).out)
  {
    if ns != [] {
      var init, n := ns[..|ns| - 1], ns[|ns| - 1];
      SnocElems(ns);
      VisitFailure(s, init);
      var p := VisitRun(s, init);
      if p.out.Pass? && n !in p.st.done {
        assert VisitRun(s, ns) == ProcessRun(p.st, n);
        ProcessFailure(p.st, n);
      }
    }
  }

  /** Phase one from an empty stack fails with a cycle error only on a
      dependency cycle, which the reported stack holds: from the reported
      component's place on it to its end, and back to that component. When
      every field has a plan, every failure is such a cycle error. */
  lemma {:induction false} CycleErrorIsCycle(s: State, ns: seq<string>)
    requires Sound(s) && Elems(ns) <= s.reg.names.Keys && s.stack == []
    ensures var r := VisitRun(s, ns).out;
            r.Fail? && PlansOk(s.reg) ==> r.error.Cycle?
    ensures var r := VisitRun(s, ns).out;
            r.Fail? && r.error.Cycle? ==>
              exists k :: 0 <= k < |r.error.stack| && r.error.stack[k] == r.error.comp &&
                          DepCycle(s.reg, r.error.stack[k..] + [r.error.comp])
  {
    VisitFailure(s, ns);
    var r := VisitRun(s, ns).out;
    if r.Fail? && r.error.Cycle? {
      var st, c := r.error.stack, r.error.comp;
      var k :| 0 <= k < |st| && st[k] == c;
      assert CyclePath([], r.error) == st + [c];
      LinkedSuffix(s.reg, st + [c], k);
      assert (st + [c])[k..] == st[k..] + [c];
    }
  }

  /** The position of x in order. */
  ghost function Pos(order: seq<string>, x: string): (k: nat)
    requires x in order
    ensures k < |order| && order[k] == x
  {
    var k :| 0 <= k < |order| && order[k] == x; k
  }

  /** In a completion order without repeats that puts every component after
      its dependencies, a dependency comes earlier. */
  lemma {:induction false} EdgeDescends(reg: Registry, order: seq<string>, a: string, b: string)
    requires Distinct(order) && Topo(reg, order, 0)
    requires a in order && a in reg.names && b in Deps(reg, a)
    ensures b in order && Pos(order, b) < Pos(order, a)
  {
    var p := Pos(order, a);
    assert b in Elems(order[..p]);
    var q :| 0 <= q < p && order[q] == b;
    var q' := Pos(order, b);
    if q' < q {
      DistinctIndexes(order, q', q);
    } else if q < q' {
      DistinctIndexes(order, q, q');
    }
  }

  /** Along a chain, positions in such an order strictly decrease. */
  lemma {:induction false} ChainDescends(reg: Registry, order: seq<string>, xs: seq<string>, j: nat)
    requires Distinct(order) && Topo(reg, order, 0) && reg.names.Keys <= Elems(order)
    requires Linked(reg, xs) && 1 <= j < |xs|
    ensures xs[0] in order && xs[j] in order && Pos(order, xs[j]) < Pos(order, xs[0])
  {
    EdgeDescends(reg, order, xs[j - 1], xs[j]);
    if j > 1 {
      ChainDescends(reg, order, xs, j - 1);
    }
  }

  /** A completion order that covers every component, without repeats and
      with each component after its dependencies, rules out a cycle. */
  lemma {:induction false} TopoAcyclic(reg: Registry, order: seq<string>)
    requires Distinct(order) && Topo(reg, order, 0) && reg.names.Keys <= Elems(order)
    ensures Acyclic(reg)
  {
    forall xs | DepCycle(reg, xs) ensures false {
      ChainDescends(reg, order, xs, |xs| - 1);
    }
  }

  /** A successful bring-up from a fresh state shows the dependency graph
      has no cycle. */
  lemma {:induction false} SuccessAcyclic(s: State, ns: seq<string>)
    requires Sound(s) && Elems(ns) == s.reg.names.Keys
    requires s.done == {} && s.order == [] && s.log == []
    ensures VisitRun(s, ns).out.Pass? ==> Acyclic(s.reg)
  {
    BringUp(s, ns);
    var res := VisitRun(s, ns);
    if res.out.Pass? {
      TopoAcyclic(s.reg, res.st.order);
    }
  }

  /** When every field of every struct component has a plan, the bring-up
      from a fresh state succeeds exactly when the dependency graph has no
      cycle. */
  lemma {:induction false} BringUpIffAcyclic(s: State, ns: seq<string>)
    requires Sound(s) && Elems(ns) == s.reg.names.Keys
    requires s.done == {} && s.order == [] && s.log == [] && s.stack == []
    requires PlansOk(s.reg)
    ensures VisitRun(s, ns).out.Pass? <==> Acyclic(s.reg)
  {
    SuccessAcyclic(s, ns);
    CycleErrorIsCycle(s, ns);
    var r := VisitRun(s, ns).out;
    if r.Fail? {
      var k :| 0 <= k < |r.error.stack| && r.error.stack[k] == r.error.comp &&
               DepCycle(s.reg, r.error.stack[k..] + [r.error.comp]);
    }
  }
  /** Two struct components X and Y, each with a pointer field whose `name`
      tag names the other, before the bring-up. */
  ghost function PairState(): State {
    var tx := GoType(1, "main", "X", StructKind);
    var ty := GoType(2, "main", "Y", StructKind);
    var ox := Obj(1, tx, [Field("Peer", FieldType(true, ty), None, Some("Y"), false)]);
    var oy := Obj(2, ty, [Field("Peer", FieldType(true, tx), None, Some("X"), false)]);
    var reg := Registry(Universe({}, {}, map[], {}, {}), map[],
                        map["X" := ox, "Y" := oy], map[tx := ["X"], ty := ["Y"]]);
    State(reg, map[ox := [Zero], oy := [Zero]], [], {}, [], [])
  }

  /** Wiring y with x alone on the stack, y's first field being wired to
      x: y finds x on the stack. */
  lemma {:induction false} SecondFindsFirst(s1: State, x: string, y: string)
    requires Sound(s1) && s1.stack == [x] && y !in s1.done && x !in s1.done && x != y
    requires y in s1.reg.names && s1.reg.names[y].ty.kind == StructKind && s1.reg.names[y].layout != []
    requires PlanOf(s1.reg, y, s1.reg.names[y].layout[0]) == Ok(WireTo(x))
    ensures ProcessRun(s1, y).out == Fail(Cycle(x, [x, y]))
  {
    var s2 := Pushed(s1, y);
    var e: Outcome<Error> := Fail(Cycle(x, [x, y]));
    assert s2.stack == [x, y] && x in s2.stack;
    assert ProcessRun(s2, x) == Run(e, s2);
    FieldDep(s2, y, 0, x, Run(e, s2));
    FieldsRunStep(s2, y, 0);
    ProcessWired(s1, y, FieldsRun(s2, y, 0));
  }

  /** Wiring x from an empty stack, x's first field being wired to y and
      y's to x: the cycle error for x on the stack [x, y]. */
  lemma {:induction false} FirstFindsItself(s: State, x: string, y: string)
    requires Sound(s) && s.stack == [] && s.done == {} && x != y
    requires x in s.reg.names && s.reg.names[x].ty.kind == StructKind && s.reg.names[x].layout != []
    requires y in s.reg.names && s.reg.names[y].ty.kind == StructKind && s.reg.names[y].layout != []
    requires PlanOf(s.reg, x, s.reg.names[x].layout[0]) == Ok(WireTo(y))
    requires PlanOf(s.reg, y, s.reg.names[y].layout[0]) == Ok(WireTo(x))
    ensures ProcessRun(s, x).out == Fail(Cycle(x, [x, y]))
  {
    var s1 := Pushed(s, x);
    SecondFindsFirst(s1, x, y);
    FieldDep(s1, x, 0, y, ProcessRun(s1, y));
    FieldsRunStep(s1, x, 0);
    ProcessWired(s, x, FieldsRun(s1, x, 0));
  }

  /** Two struct components x and y whose first fields are wired to each
      other: bringing up x then y from a fresh state wires x, which wires y
      first, whose field finds x on the stack, so the bring-up fails with a
      cycle error for x on the stack [x, y]; x and y depend on each other. */
  lemma {:induction false} MutualWiring(s: State, x: string, y: string)
    requires Sound(s) && s.stack == [] && s.done == {} && x != y
    requires x in s.reg.names && s.reg.names[x].ty.kind == StructKind && s.reg.names[x].layout != []
    requires y in s.reg.names && s.reg.names[y].ty.kind == StructKind && s.reg.names[y].layout != []
    requires PlanOf(s.reg, x, s.reg.names[x].layout[0]) == Ok(WireTo(y))
    requires PlanOf(s.reg, y, s.reg.names[y].layout[0]) == Ok(WireTo(x))
    ensures VisitRun(s, [x, y]).out == Fail(Cycle(x, [x, y]))
    ensures DepCycle(s.reg, [x, y, x])
  {
    FirstFindsItself(s, x, y);
    assert VisitRun(s, []) == Run(Pass, s);
    VisitNext(s, [], x, s, ProcessRun(s, x));
    assert [x, y][..1] == [] + [x];
    SnocElems([x, y]);
    MutualDeps(s.reg, x, y);
  }

  /** Two struct components whose first fields are wired to each other
      form a dependency cycle. */
  lemma {:induction false} MutualDeps(reg: Registry, x: string, y: string)
    requires x in reg.names && reg.names[x].ty.kind == StructKind && reg.names[x].layout != []
    requires y in reg.names && reg.names[y].ty.kind == StructKind && reg.names[y].layout != []
    requires PlanOf(reg, x, reg.names[x].layout[0]) == Ok(WireTo(y))
    requires PlanOf(reg, y, reg.names[y].layout[0]) == Ok(WireTo(x))
    ensures DepCycle(reg, [x, y, x])
  {
    DepOfField(reg, x, 0, y);
    DepOfField(reg, y, 0, x);
  }

  /** In the pair of components whose `name` tags name each other, each
      field is wired to the other component. */
  lemma {:induction false} PairPlans()
    ensures var s := PairState();
            Sound(s) && s.stack == [] && s.done == {} &&
            "X" in s.reg.names && s.reg.names["X"].ty.kind == StructKind && s.reg.names["X"].layout != [] &&
            "Y" in s.reg.names && s.reg.names["Y"].ty.kind == StructKind && s.reg.names["Y"].layout != [] &&
            PlanOf(s.reg, "X", s.reg.names["X"].layout[0]) == Ok(WireTo("Y")) &&
            PlanOf(s.reg, "Y", s.reg.names["Y"].layout[0]) == Ok(WireTo("X"))
  {
  }

  /** The bring-up of X and Y, whose `name` tags name each other, fails with
      a cycle error for X on the stack [X, Y]; X and Y depend on each
      other. */
  lemma {:induction false} MutualNameTags()
    ensures VisitRun(PairState(), ["X", "Y"]).out == Fail(Cycle("X", ["X", "Y"]))
    ensures !Acyclic(PairState().reg)
  {
    PairPlans();
    MutualWiring(PairState(), "X", "Y");
  }
}
