/** Small compounds worked through the recursive scope, after the example
    in the comment at curv/definition.cc:276-282: `f() = x; x = f();`, for
    any two distinct names.  Each step of the analysis is one lemma about
    named intermediate states. */
module RecursiveExamples {
  import opened Syntax
  import opened Meanings
  import opened ScopeState
  import opened FunctionSetter
  import opened RecursiveScope
  import opened RecursiveAnalysis

  /** A frame scope whose two definitions hold slots 0 and 1, with the given
      units, counter, stacks and actions. */
  function TwoScope(d0: Definition, d1: Definition, u0: Unit, u1: Unit, count: nat,
                    scc: seq<nat>, an: seq<nat>, acts: seq<Action>): RecScope
  {
    RecScope(Frame, {}, map[d0.name := Binding(0, 0), d1.name := Binding(1, 1)], [u0, u1], 2, [], count, scc, an, acts)
  }

  lemma TwoScopeWellFormed(d0: Definition, d1: Definition, u0: Unit, u1: Unit, count: nat,
                           scc: seq<nat>, an: seq<nat>, acts: seq<Action>)
    requires forall k :: 0 <= k < |scc| ==> scc[k] < 2
    requires forall k :: 0 <= k < |an| ==> an[k] < 2
    requires |u0.nonlocals| <= 1 && |u1.nonlocals| <= 1
    ensures WellFormed(TwoScope(d0, d1, u0, u1, count, scc, an, acts))
  {
  }

  /** A first visit unfolded: discover the unit, resolve its right-hand
      side, then complete it. */
  lemma VisitUnfold(st: RecScope, i: nat, id: Name, mid: RecScope, body: seq<Expr>) returns (st2: RecScope)
    requires WellFormed(st) && i < |st.units| && st.units[i].state.NotAnalyzed?
    requires var env := if st.units[i].def.IsData() then ScopeEnv else CaptureEnv(i);
      Resolve(Discover(st, i), st.units[i].def.refs, env) == Ok((mid, body))
    ensures i < |mid.units| && |mid.analysisStack| > 0 && st2 == FinishAnalysis(mid, i, body)
    ensures WellFormed(st2) && Visit(st, i, id) == Complete(st2, i, id)
  {
    AroundEvolves(st, i, mid, body);
    st2 := FinishAnalysis(mid, i, body);
  }

  /** A nonlocal lookup unfolded: the meaning found is recorded as a
      capture of the owner. */
  lemma CaptureUnfold(st: RecScope, owner: nat, n: Name, st1: RecScope, e: Expr)
    requires WellFormed(st) && owner < |st.units| && Lookup(st, n) == Ok((st1, e)) && !e.Constant?
    ensures owner < |st1.units| && CapturesDistinct(st1.units[owner].nonlocals)
    ensures var u := st1.units[owner].(nonlocals := RecordNonlocal(st1.units[owner].nonlocals, n, e));
      CaptureLookup(st, owner, n) == Ok((st1.(units := st1.units[owner := u]), SymbolicRef(n)))
  {
  }

  /** A first visit whose right-hand side fails fails the same way. */
  lemma VisitFails(st: RecScope, i: nat, id: Name)
    requires WellFormed(st) && i < |st.units| && st.units[i].state.NotAnalyzed? && WellFormed(Discover(st, i))
    requires var env := if st.units[i].def.IsData() then ScopeEnv else CaptureEnv(i);
      Resolve(Discover(st, i), st.units[i].def.refs, env).Err?
    ensures var env := if st.units[i].def.IsData() then ScopeEnv else CaptureEnv(i);
      Visit(st, i, id) == Err(Resolve(Discover(st, i), st.units[i].def.refs, env).error)
  {
  }

  /** A right-hand side of one reference is that reference's lookup. */
  lemma ResolveOne(st: RecScope, n: Name, env: Env)
    requires WellFormed(st) && (env.CaptureEnv? ==> env.owner < |st.units|)
    ensures EnvLookup(st, n, env).Ok? ==>
      Resolve(st, [n], env) == Ok((EnvLookup(st, n, env).value.0, [EnvLookup(st, n, env).value.1]))
    ensures EnvLookup(st, n, env).Err? ==> Resolve(st, [n], env) == Err(EnvLookup(st, n, env).error)
  {
    assert [n][1..] == [];
    if EnvLookup(st, n, env).Ok? {
      var p := EnvLookup(st, n, env).value;
      assert Resolve(p.0, [], env) == Ok((p.0, []));
      assert [p.1] + [] == [p.1];
    }
  }

  /** Two definitions registered, nothing analysed. */
  function TwoUnits(d0: Definition, d1: Definition): RecScope
  {
    TwoScope(d0, d1, NewUnit(d0).(slot := 0), NewUnit(d1).(slot := 1), 0, [], [], [])
  }

  /** Registration binds the first definition to slot 0 and the second to
      slot 1 of the frame. */
  lemma RegisterTwo(d0: Definition, d1: Definition)
    requires d0.name != d1.name
    ensures AddToScope(EmptyScope(Frame, {}, 0), [DefEntry(d0), DefEntry(d1)]) == Ok(TwoUnits(d0, d1))
  {
    var e0 := EmptyScope(Frame, {}, 0);
    var st0 := TwoUnits(d0, d1);
    var a1 := RecScope(Frame, {}, map[d0.name := Binding(0, 0)], [NewUnit(d0).(slot := 0)], 1, [], 0, [], [], []);
    var es := [DefEntry(d0), DefEntry(d1)];
    AddDefinitionShape(e0, d0);
    assert e0.units + [NewUnit(d0).(slot := 0)] == a1.units;
    assert AddDefinition(e0, d0) == Ok(a1);
    AddDefinitionShape(a1, d1);
    assert a1.units + [NewUnit(d1).(slot := 1)] == st0.units;
    assert a1.dict[d1.name := Binding(1, 1)] == st0.dict;
    assert AddDefinition(a1, d1) == Ok(st0);
    assert es[1..] == [DefEntry(d1)] && [DefEntry(d1)][1..] == [];
    assert AddToScope(st0, []) == Ok(st0);
    assert AddToScope(a1, [DefEntry(d1)]) == Ok(st0);
  }

  // ---------------------------------------------------------------------
  // `f() = x; x = f();`

  function FunctionOf(f: Name, x: Name): Definition
  {
    Definition(FunctionKind, f, [x])
  }

  function DataOf(x: Name, f: Name): Definition
  {
    Definition(DataKind, x, [f])
  }

  function FX(f: Name, x: Name, u0: Unit, u1: Unit, count: nat, scc: seq<nat>, an: seq<nat>): RecScope
  {
    TwoScope(FunctionOf(f, x), DataOf(x, f), u0, u1, count, scc, an, [])
  }

  /** f under analysis, discovered first. */
  function StartedF(f: Name, x: Name): Unit
  {
    NewUnit(FunctionOf(f, x)).(slot := 0, state := InProgress)
  }

  function FreshX(f: Name, x: Name): Unit
  {
    NewUnit(DataOf(x, f)).(slot := 1)
  }

  /** x under analysis, discovered second. */
  function StartedX(f: Name, x: Name): Unit
  {
    FreshX(f, x).(state := InProgress, ord := 1, lowlink := 1)
  }

  /** x after reaching f: its lowlink is f's ord. */
  function LoweredX(f: Name, x: Name): Unit
  {
    StartedX(f, x).(lowlink := 0)
  }

  function DoneX(f: Name, x: Name): Unit
  {
    LoweredX(f, x).(body := [LetRef(f, 0)])
  }

  /** f after capturing x. */
  function CapturingF(f: Name, x: Name): Unit
  {
    StartedF(f, x).(nonlocals := [Capture(x, LetRef(x, 1))])
  }

  function DoneF(f: Name, x: Name): Unit
  {
    CapturingF(f, x).(body := [SymbolicRef(x)])
  }

  // The states of the analysis started from f.
  function FX0(f: Name, x: Name): RecScope { TwoUnits(FunctionOf(f, x), DataOf(x, f)) }
  function FX1(f: Name, x: Name): RecScope { FX(f, x, StartedF(f, x), FreshX(f, x), 1, [0], [0]) }
  function FX2(f: Name, x: Name): RecScope { FX(f, x, StartedF(f, x), StartedX(f, x), 2, [0, 1], [0, 1]) }
  function FX3(f: Name, x: Name): RecScope { FX(f, x, StartedF(f, x), LoweredX(f, x), 2, [0, 1], [0, 1]) }
  function FX4(f: Name, x: Name): RecScope { FX(f, x, StartedF(f, x), DoneX(f, x), 2, [0, 1], [0]) }
  function FX5(f: Name, x: Name): RecScope { FX(f, x, CapturingF(f, x), DoneX(f, x), 2, [0, 1], [0]) }
  function FX6(f: Name, x: Name): RecScope { FX(f, x, DoneF(f, x), DoneX(f, x), 2, [0, 1], []) }

  /** x reaches f while f is in progress: x's lowlink drops to f's ord. */
  lemma XLooksUpF(f: Name, x: Name)
    requires f != x
    ensures WellFormed(FX2(f, x)) && SingleLookup(FX2(f, x), f) == Ok((FX3(f, x), Some(LetRef(f, 0))))
  {
    XLowered(f, x);
    assert AnalyzeUnit(FX2(f, x), 0, f) == Ok(FX3(f, x));
  }

  /** Lowering x, the top of the analysis stack, to f's ord 0. */
  lemma XLowered(f: Name, x: Name)
    requires f != x
    ensures WellFormed(FX2(f, x)) && WellFormed(FX3(f, x)) && LowerParent(FX2(f, x), 0) == FX3(f, x)
  {
    TwoScopeWellFormed(FunctionOf(f, x), DataOf(x, f), StartedF(f, x), StartedX(f, x), 2, [0, 1], [0, 1], []);
    TwoScopeWellFormed(FunctionOf(f, x), DataOf(x, f), StartedF(f, x), LoweredX(f, x), 2, [0, 1], [0, 1], []);
  }

  lemma XReachesF(f: Name, x: Name)
    requires f != x
    ensures WellFormed(FX2(f, x)) && Resolve(FX2(f, x), [f], ScopeEnv) == Ok((FX3(f, x), [LetRef(f, 0)]))
  {
    XLooksUpF(f, x);
    assert EnvLookup(FX2(f, x), f, ScopeEnv) == Ok((FX3(f, x), LetRef(f, 0)));
    ResolveOne(FX2(f, x), f, ScopeEnv);
  }

  /** x is not the root of its component: completing it leaves it on the
      SCC stack and emits nothing. */
  lemma XCompleted(f: Name, x: Name)
    requires f != x
    ensures WellFormed(FX4(f, x)) && Complete(FX4(f, x), 1, x) == Ok(FX4(f, x))
  {
    TwoScopeWellFormed(FunctionOf(f, x), DataOf(x, f), StartedF(f, x), DoneX(f, x), 2, [0, 1], [0], []);
    assert PropagateLowlink(FX4(f, x), 1, x) == Ok(FX4(f, x));
  }

  lemma XStarted(f: Name, x: Name)
    requires f != x
    ensures WellFormed(FX1(f, x)) && Resolve(Discover(FX1(f, x), 1), [f], ScopeEnv) == Ok((FX3(f, x), [LetRef(f, 0)]))
  {
    TwoScopeWellFormed(FunctionOf(f, x), DataOf(x, f), StartedF(f, x), FreshX(f, x), 1, [0], [0], []);
    assert Discover(FX1(f, x), 1) == FX2(f, x);
    XReachesF(f, x);
  }

  lemma XVisited(f: Name, x: Name)
    requires f != x
    ensures WellFormed(FX1(f, x)) && AnalyzeUnit(FX1(f, x), 1, x) == Ok(FX4(f, x))
  {
    XStarted(f, x);
    XCompleted(f, x);
    XFinishAnalysis(f, x);
    var st2 := VisitUnfold(FX1(f, x), 1, x, FX3(f, x), [LetRef(f, 0)]);
  }

  /** With f found, x's body is stored and x leaves the analysis stack. */
  lemma XFinishAnalysis(f: Name, x: Name)
    ensures |FX3(f, x).analysisStack| > 0 && FinishAnalysis(FX3(f, x), 1, [LetRef(f, 0)]) == FX4(f, x)
  {
  }

  lemma FLooksUpX(f: Name, x: Name)
    requires f != x
    ensures WellFormed(FX1(f, x)) && Lookup(FX1(f, x), x) == Ok((FX4(f, x), LetRef(x, 1)))
  {
    XVisited(f, x);
    assert SingleLookup(FX1(f, x), x) == Ok((FX4(f, x), Some(LetRef(x, 1))));
  }

  /** f's lookup of x analyses x and records x's slot as a nonlocal of f. */
  lemma FCapturesX(f: Name, x: Name)
    requires f != x
    ensures WellFormed(FX1(f, x)) && CaptureLookup(FX1(f, x), 0, x) == Ok((FX5(f, x), SymbolicRef(x)))
  {
    FLooksUpX(f, x);
    CaptureUnfold(FX1(f, x), 0, x, FX4(f, x), LetRef(x, 1));
    assert RecordNonlocal([], x, LetRef(x, 1)) == [Capture(x, LetRef(x, 1))];
    assert FX4(f, x).units[0 := CapturingF(f, x)] == FX5(f, x).units;
  }

  lemma FResolved(f: Name, x: Name)
    requires f != x
    ensures WellFormed(FX1(f, x)) && Resolve(FX1(f, x), [x], CaptureEnv(0)) == Ok((FX5(f, x), [SymbolicRef(x)]))
  {
    FCapturesX(f, x);
    assert EnvLookup(FX1(f, x), x, CaptureEnv(0)) == Ok((FX5(f, x), SymbolicRef(x)));
    ResolveOne(FX1(f, x), x, CaptureEnv(0));
  }

  /** f is the root of a component that also holds x. */
  lemma FGroupFails(f: Name, x: Name)
    requires f != x
    ensures WellFormed(FX6(f, x)) && Complete(FX6(f, x), 0, f) == Err(RecursiveDataDefinition(x))
  {
    var st := FX6(f, x);
    TwoScopeWellFormed(FunctionOf(f, x), DataOf(x, f), DoneF(f, x), DoneX(f, x), 2, [0, 1], [], []);
    assert PropagateLowlink(st, 0, f) == Ok(st);
    assert IndexOf(st.sccStack, 0) == 0;
    assert st.sccStack[0..] == [0, 1];
    assert FirstData(st.units, [0, 1]) == 1;
    assert MakeFunctionSetter(st.target, st.units, [0, 1]) == Err(RecursiveDataDefinition(x));
    assert EmitGroup(st, 0) == Err(RecursiveDataDefinition(x));
  }

  lemma FStarted(f: Name, x: Name)
    requires f != x
    ensures WellFormed(FX0(f, x)) && Resolve(Discover(FX0(f, x), 0), [x], CaptureEnv(0)) == Ok((FX5(f, x), [SymbolicRef(x)]))
  {
    var st := FX0(f, x);
    TwoScopeWellFormed(FunctionOf(f, x), DataOf(x, f), st.units[0], st.units[1], 0, [], [], []);
    assert Discover(st, 0) == FX1(f, x);
    FResolved(f, x);
  }

  lemma FFinished(f: Name, x: Name)
    requires f != x
    ensures WellFormed(FX0(f, x)) && WellFormed(FX6(f, x)) && Visit(FX0(f, x), 0, f) == Complete(FX6(f, x), 0, f)
  {
    FStarted(f, x);
    FFinishAnalysis(f, x);
    var st2 := VisitUnfold(FX0(f, x), 0, f, FX5(f, x), [SymbolicRef(x)]);
  }

  /** With x captured, f's body is stored and f leaves the analysis stack. */
  lemma FFinishAnalysis(f: Name, x: Name)
    ensures |FX5(f, x).analysisStack| > 0 && FinishAnalysis(FX5(f, x), 0, [SymbolicRef(x)]) == FX6(f, x)
  {
  }

  lemma VisitF(f: Name, x: Name)
    requires f != x
    ensures WellFormed(FX0(f, x)) && AnalyzeUnit(FX0(f, x), 0, f) == Err(RecursiveDataDefinition(x))
  {
    FFinished(f, x);
    FGroupFails(f, x);
  }

  /** Analysed from f, the compound fails: x reaches f while f is in
      progress, so f and x form one component, and a component holding a
      data definition is a recursive data definition. */
  lemma FunctionThenDataCycle(f: Name, x: Name)
    requires f != x
    ensures Analyze(Frame, {}, 0, [DefEntry(FunctionOf(f, x)), DefEntry(DataOf(x, f))]) == Err(RecursiveDataDefinition(x))
  {
    RegisterTwo(FunctionOf(f, x), DataOf(x, f));
    VisitF(f, x);
    assert AnalyzeActions(FX0(f, x), 0) == Ok(FX0(f, x));
    assert AnalyzeRemaining(FX0(f, x), 0) == Err(RecursiveDataDefinition(x));
  }

  // ---------------------------------------------------------------------
  // `x = f(); f() = x;`

  function XF(f: Name, x: Name, u0: Unit, u1: Unit, count: nat, scc: seq<nat>, an: seq<nat>): RecScope
  {
    TwoScope(DataOf(x, f), FunctionOf(f, x), u0, u1, count, scc, an, [])
  }

  /** x under analysis, discovered first. */
  function FirstX(f: Name, x: Name): Unit
  {
    NewUnit(DataOf(x, f)).(slot := 0, state := InProgress)
  }

  function FreshF(f: Name, x: Name): Unit
  {
    NewUnit(FunctionOf(f, x)).(slot := 1)
  }

  /** f under analysis, discovered second. */
  function SecondF(f: Name, x: Name): Unit
  {
    FreshF(f, x).(state := InProgress, ord := 1, lowlink := 1)
  }

  function XF0(f: Name, x: Name): RecScope { TwoUnits(DataOf(x, f), FunctionOf(f, x)) }
  function XF1(f: Name, x: Name): RecScope { XF(f, x, FirstX(f, x), FreshF(f, x), 1, [0], [0]) }
  function XF2(f: Name, x: Name): RecScope { XF(f, x, FirstX(f, x), SecondF(f, x), 2, [0, 1], [0, 1]) }

  /** f's reference to x reaches x while x is in progress. */
  lemma FReachesX(f: Name, x: Name)
    requires f != x
    ensures WellFormed(XF2(f, x)) && Resolve(XF2(f, x), [x], CaptureEnv(1)) == Err(IllegalRecursiveReference(x))
  {
    var st := XF2(f, x);
    TwoScopeWellFormed(DataOf(x, f), FunctionOf(f, x), FirstX(f, x), SecondF(f, x), 2, [0, 1], [0, 1], []);
    assert AnalyzeUnit(st, 0, x) == Err(IllegalRecursiveReference(x));
    assert SingleLookup(st, x) == Err(IllegalRecursiveReference(x));
    assert CaptureLookup(st, 1, x) == Err(IllegalRecursiveReference(x));
    ResolveOne(st, x, CaptureEnv(1));
  }

  lemma XReachesFailingF(f: Name, x: Name)
    requires f != x
    ensures WellFormed(XF1(f, x)) && Resolve(XF1(f, x), [f], ScopeEnv) == Err(IllegalRecursiveReference(x))
  {
    var st := XF1(f, x);
    TwoScopeWellFormed(DataOf(x, f), FunctionOf(f, x), FirstX(f, x), FreshF(f, x), 1, [0], [0], []);
    assert Discover(st, 1) == XF2(f, x);
    FReachesX(f, x);
    VisitFails(st, 1, f);
    assert SingleLookup(st, f) == Err(IllegalRecursiveReference(x));
    ResolveOne(st, f, ScopeEnv);
  }

  lemma VisitX(f: Name, x: Name)
    requires f != x
    ensures WellFormed(XF0(f, x)) && AnalyzeUnit(XF0(f, x), 0, x) == Err(IllegalRecursiveReference(x))
  {
    var st := XF0(f, x);
    TwoScopeWellFormed(DataOf(x, f), FunctionOf(f, x), st.units[0], st.units[1], 0, [], [], []);
    assert Discover(st, 0) == XF1(f, x);
    XReachesFailingF(f, x);
    VisitFails(st, 0, x);
  }

  /** Analysed from x, the compound fails at f's reference to x: x is a
      data definition still in progress. */
  lemma DataThenFunctionCycle(f: Name, x: Name)
    requires f != x
    ensures Analyze(Frame, {}, 0, [DefEntry(DataOf(x, f)), DefEntry(FunctionOf(f, x))]) == Err(IllegalRecursiveReference(x))
  {
    RegisterTwo(DataOf(x, f), FunctionOf(f, x));
    VisitX(f, x);
    assert AnalyzeActions(XF0(f, x), 0) == Ok(XF0(f, x));
    assert AnalyzeRemaining(XF0(f, x), 0) == Err(IllegalRecursiveReference(x));
  }

  // ---------------------------------------------------------------------
  // `a = b; b = 1;`

  function UsesB(a: Name, b: Name): Definition
  {
    Definition(DataKind, a, [b])
  }

  function Leaf(b: Name): Definition
  {
    Definition(DataKind, b, [])
  }

  function AB(a: Name, b: Name, u0: Unit, u1: Unit, count: nat, scc: seq<nat>, an: seq<nat>, acts: seq<Action>): RecScope
  {
    TwoScope(UsesB(a, b), Leaf(b), u0, u1, count, scc, an, acts)
  }

  function StartedA(a: Name, b: Name): Unit { NewUnit(UsesB(a, b)).(slot := 0, state := InProgress) }
  function FinishedA(a: Name, b: Name): Unit { StartedA(a, b).(body := [LetRef(b, 1)]) }
  function DoneA(a: Name, b: Name): Unit { FinishedA(a, b).(state := Analyzed) }
  function FreshB(b: Name): Unit { NewUnit(Leaf(b)).(slot := 1) }
  function StartedB(b: Name): Unit { FreshB(b).(state := InProgress, ord := 1, lowlink := 1) }
  function DoneB(b: Name): Unit { StartedB(b).(state := Analyzed) }
  function SetB(b: Name): Action { DataSetter(1, b, []) }
  function SetA(a: Name, b: Name): Action { DataSetter(0, a, [LetRef(b, 1)]) }

  // The states of the analysis started from a.
  function AB0(a: Name, b: Name): RecScope { TwoUnits(UsesB(a, b), Leaf(b)) }
  function AB1(a: Name, b: Name): RecScope { AB(a, b, StartedA(a, b), FreshB(b), 1, [0], [0], []) }
  function AB2(a: Name, b: Name): RecScope { AB(a, b, StartedA(a, b), StartedB(b), 2, [0, 1], [0, 1], []) }
  function AB3(a: Name, b: Name): RecScope { AB(a, b, StartedA(a, b), StartedB(b), 2, [0, 1], [0], []) }
  function AB4(a: Name, b: Name): RecScope { AB(a, b, StartedA(a, b), DoneB(b), 2, [0], [0], [SetB(b)]) }
  function AB5(a: Name, b: Name): RecScope { AB(a, b, FinishedA(a, b), DoneB(b), 2, [0], [], [SetB(b)]) }
  function AB6(a: Name, b: Name): RecScope { AB(a, b, DoneA(a, b), DoneB(b), 2, [], [], [SetB(b), SetA(a, b)]) }

  /** b is the root of a component of its own: its setter is emitted. */
  lemma BCompleted(a: Name, b: Name)
    requires a != b
    ensures WellFormed(AB3(a, b)) && Complete(AB3(a, b), 1, b) == Ok(AB4(a, b))
  {
    TwoScopeWellFormed(UsesB(a, b), Leaf(b), StartedA(a, b), StartedB(b), 2, [0, 1], [0], []);
    assert PropagateLowlink(AB3(a, b), 1, b) == Ok(AB3(a, b));
    assert EmitData(AB3(a, b), 1) == AB4(a, b);
  }

  lemma BStarted(a: Name, b: Name)
    requires a != b
    ensures WellFormed(AB1(a, b)) && Resolve(Discover(AB1(a, b), 1), [], ScopeEnv) == Ok((AB2(a, b), []))
  {
    TwoScopeWellFormed(UsesB(a, b), Leaf(b), StartedA(a, b), FreshB(b), 1, [0], [0], []);
    TwoScopeWellFormed(UsesB(a, b), Leaf(b), StartedA(a, b), StartedB(b), 2, [0, 1], [0, 1], []);
    assert Discover(AB1(a, b), 1) == AB2(a, b);
  }

  lemma BFinished(a: Name, b: Name)
    requires a != b
    ensures WellFormed(AB1(a, b)) && WellFormed(AB3(a, b)) && Visit(AB1(a, b), 1, b) == Complete(AB3(a, b), 1, b)
  {
    BStarted(a, b);
    BFinishAnalysis(a, b);
    var st2 := VisitUnfold(AB1(a, b), 1, b, AB2(a, b), []);
  }

  /** b has nothing to look up: its empty body is stored and it leaves the
      analysis stack. */
  lemma BFinishAnalysis(a: Name, b: Name)
    ensures |AB2(a, b).analysisStack| > 0 && FinishAnalysis(AB2(a, b), 1, []) == AB3(a, b)
  {
  }

  lemma VisitB(a: Name, b: Name)
    requires a != b
    ensures WellFormed(AB1(a, b)) && AnalyzeUnit(AB1(a, b), 1, b) == Ok(AB4(a, b))
  {
    BFinished(a, b);
    BCompleted(a, b);
  }

  /** a's lookup of b analyses b first. */
  lemma LookupB(a: Name, b: Name)
    requires a != b
    ensures WellFormed(AB1(a, b)) && Resolve(AB1(a, b), [b], ScopeEnv) == Ok((AB4(a, b), [LetRef(b, 1)]))
  {
    VisitB(a, b);
    assert SingleLookup(AB1(a, b), b) == Ok((AB4(a, b), Some(LetRef(b, 1))));
    assert EnvLookup(AB1(a, b), b, ScopeEnv) == Ok((AB4(a, b), LetRef(b, 1)));
    ResolveOne(AB1(a, b), b, ScopeEnv);
  }

  /** a is then the root of a component of its own. */
  lemma ACompleted(a: Name, b: Name)
    requires a != b
    ensures WellFormed(AB5(a, b)) && Complete(AB5(a, b), 0, a) == Ok(AB6(a, b))
  {
    TwoScopeWellFormed(UsesB(a, b), Leaf(b), FinishedA(a, b), DoneB(b), 2, [0], [], [SetB(b)]);
    assert PropagateLowlink(AB5(a, b), 0, a) == Ok(AB5(a, b));
    assert EmitData(AB5(a, b), 0) == AB6(a, b);
  }

  lemma AStarted(a: Name, b: Name)
    requires a != b
    ensures WellFormed(AB0(a, b)) && Resolve(Discover(AB0(a, b), 0), [b], ScopeEnv) == Ok((AB4(a, b), [LetRef(b, 1)]))
  {
    var st := AB0(a, b);
    TwoScopeWellFormed(UsesB(a, b), Leaf(b), st.units[0], st.units[1], 0, [], [], []);
    assert Discover(st, 0) == AB1(a, b);
    LookupB(a, b);
  }

  lemma AFinished(a: Name, b: Name)
    requires a != b
    ensures WellFormed(AB0(a, b)) && WellFormed(AB5(a, b)) && Visit(AB0(a, b), 0, a) == Complete(AB5(a, b), 0, a)
  {
    AStarted(a, b);
    AFinishAnalysis(a, b);
    var st2 := VisitUnfold(AB0(a, b), 0, a, AB4(a, b), [LetRef(b, 1)]);
  }

  /** With b's lookup done, a's body is stored and a leaves the analysis stack. */
  lemma AFinishAnalysis(a: Name, b: Name)
    ensures |AB4(a, b).analysisStack| > 0 && FinishAnalysis(AB4(a, b), 0, [LetRef(b, 1)]) == AB5(a, b)
  {
  }

  lemma VisitA(a: Name, b: Name)
    requires a != b
    ensures WellFormed(AB0(a, b)) && AnalyzeUnit(AB0(a, b), 0, a) == Ok(AB6(a, b))
  {
    AFinished(a, b);
    ACompleted(a, b);
  }

  /** A definition used before its own definition point is initialised
      first: b's setter precedes a's, and a reads b's slot. */
  lemma ForwardReferenceOrdered(a: Name, b: Name)
    requires a != b
    ensures Analyze(Frame, {}, 0, [DefEntry(UsesB(a, b)), DefEntry(Leaf(b))])
         == Ok(Executable([DataSetter(1, b, []), DataSetter(0, a, [LetRef(b, 1)])], None))
  {
    RegisterTwo(UsesB(a, b), Leaf(b));
    VisitA(a, b);
    var st := AB6(a, b);
    TwoScopeWellFormed(UsesB(a, b), Leaf(b), DoneA(a, b), DoneB(b), 2, [], [], [SetB(b), SetA(a, b)]);
    assert AnalyzeActions(AB0(a, b), 0) == Ok(AB0(a, b));
    assert AnalyzeRemaining(st, 2) == Ok(st);
    assert AnalyzeRemaining(st, 1) == Ok(st);
    assert AnalyzeRemaining(AB0(a, b), 0) == Ok(st);
  }

  // ---------------------------------------------------------------------
  // `f() = g(); g() = f();`

  /** A function whose right-hand side calls `callee`. */
  function Calls(f: Name, callee: Name): Definition
  {
    Definition(FunctionKind, f, [callee])
  }

  function FG(f: Name, g: Name, u0: Unit, u1: Unit, count: nat, scc: seq<nat>, an: seq<nat>, acts: seq<Action>): RecScope
  {
    TwoScope(Calls(f, g), Calls(g, f), u0, u1, count, scc, an, acts)
  }

  /** f under analysis, discovered first. */
  function CallerF(f: Name, g: Name): Unit { NewUnit(Calls(f, g)).(slot := 0, state := InProgress) }
  function CapturingCaller(f: Name, g: Name): Unit { CallerF(f, g).(nonlocals := [Capture(g, LetRef(g, 1))]) }
  function DoneCaller(f: Name, g: Name): Unit { CapturingCaller(f, g).(body := [SymbolicRef(g)]) }
  function FreshCallee(f: Name, g: Name): Unit { NewUnit(Calls(g, f)).(slot := 1) }
  /** g under analysis, discovered second. */
  function StartedCallee(f: Name, g: Name): Unit { FreshCallee(f, g).(state := InProgress, ord := 1, lowlink := 1) }
  /** g after reaching f: its lowlink is f's ord. */
  function LoweredCallee(f: Name, g: Name): Unit { StartedCallee(f, g).(lowlink := 0) }
  function CapturingCallee(f: Name, g: Name): Unit { LoweredCallee(f, g).(nonlocals := [Capture(f, LetRef(f, 0))]) }
  function DoneCallee(f: Name, g: Name): Unit { CapturingCallee(f, g).(body := [SymbolicRef(f)]) }

  /** The one setter of the group: both lambdas, numbered 0 and 1, and no
      other nonlocal, since each captured name is a member. */
  function SetFG(f: Name, g: Name): Action
  {
    FunctionSetter(Frame, [f, g], [LambdaConstant(f), LambdaConstant(g)],
                   [Member(0, f, [SymbolicRef(g)]), Member(1, g, [SymbolicRef(f)])])
  }

  // The states of the analysis started from f.
  function FG0(f: Name, g: Name): RecScope { TwoUnits(Calls(f, g), Calls(g, f)) }
  function FG1(f: Name, g: Name): RecScope { FG(f, g, CallerF(f, g), FreshCallee(f, g), 1, [0], [0], []) }
  function FG2(f: Name, g: Name): RecScope { FG(f, g, CallerF(f, g), StartedCallee(f, g), 2, [0, 1], [0, 1], []) }
  function FG3(f: Name, g: Name): RecScope { FG(f, g, CallerF(f, g), LoweredCallee(f, g), 2, [0, 1], [0, 1], []) }
  function FG4(f: Name, g: Name): RecScope { FG(f, g, CallerF(f, g), CapturingCallee(f, g), 2, [0, 1], [0, 1], []) }
  function FG5(f: Name, g: Name): RecScope { FG(f, g, CallerF(f, g), DoneCallee(f, g), 2, [0, 1], [0], []) }
  function FG6(f: Name, g: Name): RecScope { FG(f, g, CapturingCaller(f, g), DoneCallee(f, g), 2, [0, 1], [0], []) }
  function FG7(f: Name, g: Name): RecScope { FG(f, g, DoneCaller(f, g), DoneCallee(f, g), 2, [0, 1], [], []) }
  function FG8(f: Name, g: Name): RecScope
  {
    FG(f, g, DoneCaller(f, g).(state := Analyzed), DoneCallee(f, g).(state := Analyzed), 2, [], [], [SetFG(f, g)])
  }

  /** Lowering g, the top of the analysis stack, to f's ord 0. */
  lemma CalleeLowered(f: Name, g: Name)
    requires f != g
    ensures WellFormed(FG2(f, g)) && WellFormed(FG3(f, g)) && LowerParent(FG2(f, g), 0) == FG3(f, g)
  {
    TwoScopeWellFormed(Calls(f, g), Calls(g, f), CallerF(f, g), StartedCallee(f, g), 2, [0, 1], [0, 1], []);
    TwoScopeWellFormed(Calls(f, g), Calls(g, f), CallerF(f, g), LoweredCallee(f, g), 2, [0, 1], [0, 1], []);
  }

  /** g reaches f while f is in progress: f is a function, so this is
      legal, and g's lowlink drops to f's ord. */
  lemma CalleeLooksUpF(f: Name, g: Name)
    requires f != g
    ensures WellFormed(FG2(f, g)) && Lookup(FG2(f, g), f) == Ok((FG3(f, g), LetRef(f, 0)))
  {
    CalleeLowered(f, g);
    assert AnalyzeUnit(FG2(f, g), 0, f) == Ok(FG3(f, g));
    assert SingleLookup(FG2(f, g), f) == Ok((FG3(f, g), Some(LetRef(f, 0))));
  }

  /** g records f's slot as a nonlocal and refers to it symbolically. */
  lemma CalleeCapturesF(f: Name, g: Name)
    requires f != g
    ensures WellFormed(FG2(f, g)) && Resolve(FG2(f, g), [f], CaptureEnv(1)) == Ok((FG4(f, g), [SymbolicRef(f)]))
  {
    CalleeLooksUpF(f, g);
    CaptureUnfold(FG2(f, g), 1, f, FG3(f, g), LetRef(f, 0));
    assert RecordNonlocal([], f, LetRef(f, 0)) == [Capture(f, LetRef(f, 0))];
    assert FG3(f, g).units[1 := CapturingCallee(f, g)] == FG4(f, g).units;
    assert EnvLookup(FG2(f, g), f, CaptureEnv(1)) == Ok((FG4(f, g), SymbolicRef(f)));
    ResolveOne(FG2(f, g), f, CaptureEnv(1));
  }

  lemma CalleeStarted(f: Name, g: Name)
    requires f != g
    ensures WellFormed(FG1(f, g)) && Resolve(Discover(FG1(f, g), 1), [f], CaptureEnv(1)) == Ok((FG4(f, g), [SymbolicRef(f)]))
  {
    TwoScopeWellFormed(Calls(f, g), Calls(g, f), CallerF(f, g), FreshCallee(f, g), 1, [0], [0], []);
    assert Discover(FG1(f, g), 1) == FG2(f, g);
    CalleeCapturesF(f, g);
  }

  /** With f captured, g's body is stored and g leaves the analysis stack. */
  lemma CalleeFinishAnalysis(f: Name, g: Name)
    ensures |FG4(f, g).analysisStack| > 0 && FinishAnalysis(FG4(f, g), 1, [SymbolicRef(f)]) == FG5(f, g)
  {
  }

  /** g is not the root of its component: completing it leaves it on the
      SCC stack and emits nothing. */
  lemma CalleeCompleted(f: Name, g: Name)
    requires f != g
    ensures WellFormed(FG5(f, g)) && Complete(FG5(f, g), 1, g) == Ok(FG5(f, g))
  {
    TwoScopeWellFormed(Calls(f, g), Calls(g, f), CallerF(f, g), DoneCallee(f, g), 2, [0, 1], [0], []);
    assert PropagateLowlink(FG5(f, g), 1, g) == Ok(FG5(f, g));
  }

  lemma CalleeVisited(f: Name, g: Name)
    requires f != g
    ensures WellFormed(FG1(f, g)) && AnalyzeUnit(FG1(f, g), 1, g) == Ok(FG5(f, g))
  {
    CalleeStarted(f, g);
    CalleeCompleted(f, g);
    CalleeFinishAnalysis(f, g);
    var st2 := VisitUnfold(FG1(f, g), 1, g, FG4(f, g), [SymbolicRef(f)]);
  }

  /** f's lookup of g analyses g and records g's slot as a nonlocal of f. */
  lemma CallerCapturesG(f: Name, g: Name)
    requires f != g
    ensures WellFormed(FG1(f, g)) && Resolve(FG1(f, g), [g], CaptureEnv(0)) == Ok((FG6(f, g), [SymbolicRef(g)]))
  {
    CalleeVisited(f, g);
    assert SingleLookup(FG1(f, g), g) == Ok((FG5(f, g), Some(LetRef(g, 1))));
    assert Lookup(FG1(f, g), g) == Ok((FG5(f, g), LetRef(g, 1)));
    CaptureUnfold(FG1(f, g), 0, g, FG5(f, g), LetRef(g, 1));
    assert RecordNonlocal([], g, LetRef(g, 1)) == [Capture(g, LetRef(g, 1))];
    assert FG5(f, g).units[0 := CapturingCaller(f, g)] == FG6(f, g).units;
    assert EnvLookup(FG1(f, g), g, CaptureEnv(0)) == Ok((FG6(f, g), SymbolicRef(g)));
    ResolveOne(FG1(f, g), g, CaptureEnv(0));
  }

  lemma CallerStarted(f: Name, g: Name)
    requires f != g
    ensures WellFormed(FG0(f, g)) && Resolve(Discover(FG0(f, g), 0), [g], CaptureEnv(0)) == Ok((FG6(f, g), [SymbolicRef(g)]))
  {
    var st := FG0(f, g);
    TwoScopeWellFormed(Calls(f, g), Calls(g, f), st.units[0], st.units[1], 0, [], [], []);
    assert Discover(st, 0) == FG1(f, g);
    CallerCapturesG(f, g);
  }

  /** With g captured, f's body is stored and f leaves the analysis stack. */
  lemma CallerFinishAnalysis(f: Name, g: Name)
    ensures |FG6(f, g).analysisStack| > 0 && FinishAnalysis(FG6(f, g), 0, [SymbolicRef(g)]) == FG7(f, g)
  {
  }

  lemma CallerFinished(f: Name, g: Name)
    requires f != g
    ensures WellFormed(FG0(f, g)) && WellFormed(FG7(f, g)) && Visit(FG0(f, g), 0, f) == Complete(FG7(f, g), 0, f)
  {
    CallerStarted(f, g);
    CallerFinishAnalysis(f, g);
    var st2 := VisitUnfold(FG0(f, g), 0, f, FG6(f, g), [SymbolicRef(g)]);
  }

  /** The group of f and g has one setter: each member's captured name is
      the other member, already numbered. */
  lemma GroupSetterFG(f: Name, g: Name)
    requires f != g
    ensures InUnits(FG7(f, g).units, [0, 1]) && MakeFunctionSetter(Frame, FG7(f, g).units, [0, 1]) == Ok(SetFG(f, g))
  {
    var units := FG7(f, g).units;
    var group: seq<nat> := [0, 1];
    assert FirstData(units, group[1..]) == 1;
    assert FirstData(units, group) == 2;
    assert MemberNames(units, group[1..]) == [g];
    assert MemberNames(units, group) == [f, g];
    assert GroupCaptures(units, group[1..]) == [Capture(f, LetRef(f, 0))];
    var caps := GroupCaptures(units, group);
    assert caps == [Capture(g, LetRef(g, 1)), Capture(f, LetRef(f, 0))];
    var lams := Lambdas([f, g]);
    assert lams == [LambdaConstant(f), LambdaConstant(g)];
    assert caps[1..][1..] == [];
    assert EnumerateCaptures([f, g], lams, caps[1..]) == ([f, g], lams);
    assert Numbering(units, group) == ([f, g], lams);
    assert GroupMembers(units, group) == [Member(0, f, [SymbolicRef(g)]), Member(1, g, [SymbolicRef(f)])];
  }

  /** f is the root of a component that also holds g: both are popped,
      marked analysed and initialised by one setter. */
  lemma CallerGroupEmitted(f: Name, g: Name)
    requires f != g
    ensures WellFormed(FG7(f, g)) && Complete(FG7(f, g), 0, f) == Ok(FG8(f, g))
  {
    var st := FG7(f, g);
    TwoScopeWellFormed(Calls(f, g), Calls(g, f), DoneCaller(f, g), DoneCallee(f, g), 2, [0, 1], [], []);
    assert PropagateLowlink(st, 0, f) == Ok(st);
    GroupEmittedFG(f, g);
  }

  lemma GroupEmittedFG(f: Name, g: Name)
    requires f != g
    ensures WellFormed(FG7(f, g)) && EmitGroup(FG7(f, g), 0) == Ok(FG8(f, g))
  {
    var st := FG7(f, g);
    TwoScopeWellFormed(Calls(f, g), Calls(g, f), DoneCaller(f, g), DoneCallee(f, g), 2, [0, 1], [], []);
    assert IndexOf(st.sccStack, 0) == 0;
    assert st.sccStack[0..] == [0, 1] && st.sccStack[..0] == [];
    GroupSetterFG(f, g);
    EmitGroupSetter(st, 0);
    var st' := EmitGroup(st, 0).value;
    assert st'.actions == [SetFG(f, g)];
    GroupMarkedFG(f, g);
  }

  /** Marking the group analysed finishes both units. */
  lemma GroupMarkedFG(f: Name, g: Name)
    ensures MarkAnalyzed(FG7(f, g).units, [0, 1]) == FG8(f, g).units
  {
  }

  lemma VisitCaller(f: Name, g: Name)
    requires f != g
    ensures WellFormed(FG0(f, g)) && AnalyzeUnit(FG0(f, g), 0, f) == Ok(FG8(f, g))
  {
    CallerFinished(f, g);
    CallerGroupEmitted(f, g);
  }

  /** Two functions that call each other are legal: they form one
      component, initialised by a single function setter that writes both
      slots and captures nothing from outside the group. */
  lemma MutualFunctionsOneSetter(f: Name, g: Name)
    requires f != g
    ensures Analyze(Frame, {}, 0, [DefEntry(Calls(f, g)), DefEntry(Calls(g, f))]) == Ok(Executable([SetFG(f, g)], None))
    ensures Writes(SetFG(f, g)) == [0, 1] && Reads(SetFG(f, g)) == {}
  {
    RegisterTwo(Calls(f, g), Calls(g, f));
    RemainingFG(f, g);
    assert AnalyzeActions(FG0(f, g), 0) == Ok(FG0(f, g));
    SetterSlotsFG(f, g);
  }

  /** Analysing f first analyses g, and nothing is left to analyse. */
  lemma RemainingFG(f: Name, g: Name)
    requires f != g
    ensures WellFormed(FG0(f, g)) && AnalyzeRemaining(FG0(f, g), 0) == Ok(FG8(f, g))
  {
    VisitCaller(f, g);
    var st := FG8(f, g);
    TwoScopeWellFormed(Calls(f, g), Calls(g, f), st.units[0], st.units[1], 2, [], [], [SetFG(f, g)]);
    assert AnalyzeRemaining(st, 2) == Ok(st);
    assert AnalyzeRemaining(st, 1) == Ok(st);
  }

  lemma SetterSlotsFG(f: Name, g: Name)
    ensures Writes(SetFG(f, g)) == [0, 1] && Reads(SetFG(f, g)) == {}
  {
    assert MemberSlots(SetFG(f, g).members) == [0, 1];
  }
}
