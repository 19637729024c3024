/** Every lookup keeps the invariant of the recursive scope.

    The lemmas follow the mutual recursion of analyze_unit and the lookups
    it drives, with the same termination measure. */
module Soundness {
  import opened Syntax
  import opened Meanings
  import opened ScopeState
  import opened RecursiveScope
  import opened RecursiveInvariant
  import opened RecursiveSteps
  import opened FirstVisit

  /** A capture environment belongs to the function unit under analysis. */
  ghost predicate EnvOk(st: RecScope, env: Env)
  {
    env.CaptureEnv? ==> env.owner < |st.units| && IsTop(st, env.owner) && !st.units[env.owner].def.IsData()
  }

  /** Reaching a unit already in progress: a function lowers the referrer's
      lowlink to its ord. */
  lemma InProgressSound(st: RecScope, i: nat, id: Name)
    requires Inv(st) && i < |st.units| && st.units[i].state.InProgress? && AnalyzeUnit(st, i, id).Ok?
    ensures var st' := AnalyzeUnit(st, i, id).value;
      Inv(st') && Step(st, st') && Reached(st', i)
  {
    InProgressHasReferrer(st, i);
    var q :| 0 <= q < |st.sccStack| && st.sccStack[q] == i;
    assert FunctionAt(st, q);
    assert LowAllowed(st, st.units[i].ord);
    LowerParentSound(st, st.units[i].ord);
  }

  /** What a lookup guarantees: the invariant is kept, the scope changes
      only as a Step allows, and the meaning it yields is harmless. */
  ghost predicate LookedUp(st: RecScope, p: (RecScope, Expr))
  {
    Inv(p.0) && Step(st, p.0) && ResultOk(p.0, p.1)
  }

  /** What the analysis of a right-hand side guarantees. */
  ghost predicate Resolved(st: RecScope, r: (RecScope, seq<Expr>))
  {
    Inv(r.0) && Step(st, r.0) && forall e :: e in r.1 ==> ResultOk(r.0, e)
  }

  /** What analyze_unit guarantees. */
  ghost predicate Visited(st: RecScope, i: nat, st': RecScope)
  {
    Inv(st') && Step(st, st') && Reached(st', i)
  }

  lemma {:induction false} AnalyzeUnitSound(st: RecScope, i: nat, id: Name)
    requires Inv(st) && i < |st.units| && AnalyzeUnit(st, i, id).Ok?
    ensures Visited(st, i, AnalyzeUnit(st, i, id).value)
    decreases CountFresh(st.units), 0, 0
  {
    var u := st.units[i];
    match u.state
    case Analyzed =>
      StepRefl(st);
    case InProgress =>
      InProgressSound(st, i, id);
    case NotAnalyzed =>
      var st1 := Discover(st, i);
      CountFreshLt(st.units, st1.units, i);
      var env := if u.def.IsData() then ScopeEnv else CaptureEnv(i);
      DiscoverEnv(st, i, env);
      ResolveSound(st1, u.def.refs, env);
      FirstVisitAfter(st, i, id);
  }

  lemma DiscoverEnv(st: RecScope, i: nat, env: Env)
    requires Inv(st) && i < |st.units| && st.units[i].state.NotAnalyzed?
    requires env == if st.units[i].def.IsData() then ScopeEnv else CaptureEnv(i)
    ensures Inv(Discover(st, i)) && EnvOk(Discover(st, i), env)
  {
    DiscoverSound(st, i);
  }

  /** The first visit, once the right-hand side has been resolved. */
  lemma FirstVisitAfter(st: RecScope, i: nat, id: Name)
    requires Inv(st) && i < |st.units| && st.units[i].state.NotAnalyzed? && AnalyzeUnit(st, i, id).Ok?
    requires var env := if st.units[i].def.IsData() then ScopeEnv else CaptureEnv(i);
      && Resolve(Discover(st, i), st.units[i].def.refs, env).Ok?
      && Resolved(Discover(st, i), Resolve(Discover(st, i), st.units[i].def.refs, env).value)
    ensures Visited(st, i, AnalyzeUnit(st, i, id).value)
  {
    var mid, body, st4 := FirstVisitParts(st, i, id);
    FirstVisitSound(st, i, id, mid, body, st4);
  }

  /** The states a first visit passes through. */
  lemma FirstVisitParts(st: RecScope, i: nat, id: Name) returns (mid: RecScope, body: seq<Expr>, st4: RecScope)
    requires WellFormed(st) && i < |st.units| && st.units[i].state.NotAnalyzed? && AnalyzeUnit(st, i, id).Ok?
    ensures var env := if st.units[i].def.IsData() then ScopeEnv else CaptureEnv(i);
      Resolve(Discover(st, i), st.units[i].def.refs, env) == Ok((mid, body))
    ensures AnalyzeUnit(st, i, id) == Ok(st4) && |mid.analysisStack| > 0
    ensures WellFormed(FinishAnalysis(mid, i, body)) && Complete(FinishAnalysis(mid, i, body), i, id) == Ok(st4)
  {
    var env := if st.units[i].def.IsData() then ScopeEnv else CaptureEnv(i);
    var res := Resolve(Discover(st, i), st.units[i].def.refs, env).value;
    mid, body := res.0, res.1;
    AroundEvolves(st, i, mid, body);
    st4 := AnalyzeUnit(st, i, id).value;
  }

  lemma {:induction false} SingleLookupSound(st: RecScope, n: Name)
    requires Inv(st) && SingleLookup(st, n).Ok?
    ensures var p := SingleLookup(st, n).value;
      Inv(p.0) && Step(st, p.0) && (p.1.Some? ==> ResultOk(p.0, p.1.value))
    decreases CountFresh(st.units), 1, 0
  {
    if n in st.dict {
      AnalyzeUnitSound(st, st.dict[n].unit, n);
    } else {
      StepRefl(st);
    }
  }

  lemma {:induction false} LookupSound(st: RecScope, n: Name)
    requires Inv(st) && Lookup(st, n).Ok?
    ensures LookedUp(st, Lookup(st, n).value)
    decreases CountFresh(st.units), 2, 0
  {
    SingleLookupSound(st, n);
  }

  lemma {:induction false} CaptureLookupSound(st: RecScope, owner: nat, n: Name)
    requires Inv(st) && owner < |st.units| && IsTop(st, owner) && CaptureLookup(st, owner, n).Ok?
    ensures LookedUp(st, CaptureLookup(st, owner, n).value)
    decreases CountFresh(st.units), 3, 0
  {
    LookupSound(st, n);
    CaptureAfter(st, owner, n);
  }

  /** Recording the capture after the lookup. */
  lemma CaptureAfter(st: RecScope, owner: nat, n: Name)
    requires Inv(st) && owner < |st.units| && IsTop(st, owner) && CaptureLookup(st, owner, n).Ok?
    requires Lookup(st, n).Ok? && LookedUp(st, Lookup(st, n).value)
    ensures LookedUp(st, CaptureLookup(st, owner, n).value)
  {
    var p := Lookup(st, n).value;
    if !p.1.Constant? {
      CaptureRecords(st, owner, n);
      RecordAfter(st, p.0, owner, n, p.1);
    }
  }

  /** A capture that is not a constant is recorded by the owner. */
  lemma CaptureRecords(st: RecScope, owner: nat, n: Name)
    requires WellFormed(st) && owner < |st.units| && CaptureLookup(st, owner, n).Ok?
    requires !Lookup(st, n).value.1.Constant?
    ensures var p := Lookup(st, n).value;
      && owner < |p.0.units| && CapturesDistinct(p.0.units[owner].nonlocals)
      && CaptureLookup(st, owner, n).value == (Recorded(p.0, owner, n, p.1), SymbolicRef(n))
  {
  }

  /** Recording the looked-up meaning keeps what the lookup guaranteed. */
  lemma RecordAfter(st: RecScope, mid: RecScope, owner: nat, n: Name, e: Expr)
    requires IsTop(st, owner)
    requires Inv(mid) && Step(st, mid) && ResultOk(mid, e) && e.name == n
    ensures LookedUp(st, (Recorded(mid, owner, n, e), SymbolicRef(n)))
  {
    assert IsTop(mid, owner);
    ResultIsExprOk(mid, owner, e);
    RecordSound(mid, owner, n, e);
    RecordStep(st, mid, owner, n, e);
  }

  lemma {:induction false} EnvLookupSound(st: RecScope, n: Name, env: Env)
    requires Inv(st) && EnvOk(st, env) && EnvLookup(st, n, env).Ok?
    ensures LookedUp(st, EnvLookup(st, n, env).value)
    decreases CountFresh(st.units), 4, 0
  {
    match env
    case ScopeEnv => LookupSound(st, n);
    case CaptureEnv(owner) => CaptureLookupSound(st, owner, n);
  }

  lemma {:induction false} ResolveSound(st: RecScope, refs: seq<Name>, env: Env)
    requires Inv(st) && EnvOk(st, env) && Resolve(st, refs, env).Ok?
    ensures Resolved(st, Resolve(st, refs, env).value)
    decreases CountFresh(st.units), 5, |refs|
  {
    if |refs| == 0 {
      StepRefl(st);
    } else {
      EnvLookupSound(st, refs[0], env);
      var p := EnvLookup(st, refs[0], env).value;
      EvolvesCount(st, p.0);
      EnvOkStep(st, p, env);
      ResolveSound(p.0, refs[1..], env);
      ResolveAfter(st, refs, env);
    }
  }

  lemma EnvOkStep(st: RecScope, p: (RecScope, Expr), env: Env)
    requires EnvOk(st, env) && LookedUp(st, p)
    ensures Inv(p.0) && EnvOk(p.0, env)
  {
  }

  /** Joining the first lookup with the rest of the right-hand side. */
  lemma ResolveAfter(st: RecScope, refs: seq<Name>, env: Env)
    requires Inv(st) && EnvOk(st, env) && |refs| > 0 && Resolve(st, refs, env).Ok?
    requires EnvLookup(st, refs[0], env).Ok? && LookedUp(st, EnvLookup(st, refs[0], env).value)
    requires var p := EnvLookup(st, refs[0], env).value;
      Resolve(p.0, refs[1..], env).Ok? && Resolved(p.0, Resolve(p.0, refs[1..], env).value)
    ensures Resolved(st, Resolve(st, refs, env).value)
  {
    var p := EnvLookup(st, refs[0], env).value;
    var q := Resolve(p.0, refs[1..], env).value;
    ResolveUnfold(st, refs, env);
    ResolveJoin(st, p.0, p.1, q.0, q.1);
  }

  lemma ResolveUnfold(st: RecScope, refs: seq<Name>, env: Env)
    requires WellFormed(st) && (env.CaptureEnv? ==> env.owner < |st.units|) && |refs| > 0
    requires Resolve(st, refs, env).Ok?
    ensures var p := EnvLookup(st, refs[0], env).value;
      && EnvLookup(st, refs[0], env).Ok? && WellFormed(p.0) && (env.CaptureEnv? ==> env.owner < |p.0.units|)
      && Resolve(p.0, refs[1..], env).Ok?
      && Resolve(st, refs, env).value == (Resolve(p.0, refs[1..], env).value.0, [p.1] + Resolve(p.0, refs[1..], env).value.1)
  {
  }

  /** A lookup followed by the rest of the right-hand side. */
  lemma ResolveJoin(st: RecScope, mid: RecScope, e: Expr, fin: RecScope, es: seq<Expr>)
    requires Inv(st) && LookedUp(st, (mid, e)) && Resolved(mid, (fin, es))
    ensures Resolved(st, (fin, [e] + es))
  {
    ResultOkStep(mid, fin, e);
    StepTrans(st, mid, fin);
  }
}
