/** Recursive_Scope: every definition of the compound sees every other one.

    Registration only records units and bindings.  Analysis is lazy: the
    first lookup of a name analyses its unit, which looks up the names its
    right-hand side uses, and so on; a unit's initialisation action is
    emitted once everything it depends on has been emitted.  Tarjan's
    strongly-connected-components algorithm, run on the fly over the
    lookups, groups mutually recursive functions into one action and
    rejects recursion through data definitions. */
module RecursiveScope {
  import opened Syntax
  import opened Meanings
  import opened ScopeState
  import opened FunctionSetter

  function EmptyScope(target: Target, constants: set<Name>, firstSlot: nat): RecScope
  {
    RecScope(target, constants, map[], [], firstSlot, [], 0, [], [], [])
  }

  // ---------------------------------------------------------------------
  // Registration (Compound_Definition_Base::add_to_scope)

  /** Recursive_Scope::begin_unit: append a fresh unit, return its index. */
  function BeginUnit(st: RecScope, def: Definition): (r: (RecScope, nat))
    ensures r.1 == |st.units| && r.0.units == st.units + [NewUnit(def)]
    ensures r.0 == st.(units := r.0.units)
  {
    (st.(units := st.units + [NewUnit(def)]), |st.units|)
  }

  /** Recursive_Scope::add_binding: reject a name bound twice; otherwise
      bind it to its slot and unit. */
  function AddBinding(st: RecScope, name: Name, unitno: nat): (r: Result<(RecScope, nat)>)
    ensures r.Err? <==> name in st.dict
    ensures r.Err? ==> r.error == MultiplyDefined(name)
    ensures r.Ok? ==> var (st', slot) := r.value;
      && st'.dict == st.dict[name := Binding(slot, unitno)]
      && st'.units == st.units && st'.actionPhrases == st.actionPhrases
      && (st.target.Module? ==> slot == |st.dict| && st'.nextSlot == st.nextSlot)
      && (st.target.Frame? ==> slot == st.nextSlot && st'.nextSlot == st.nextSlot + 1)
  {
    if name in st.dict then Err(MultiplyDefined(name))
    else
      var slot := if st.target.Module? then |st.dict| else st.nextSlot;
      var next := if st.target.Module? then st.nextSlot else st.nextSlot + 1;
      Ok((st.(dict := st.dict[name := Binding(slot, unitno)], nextSlot := next), slot))
  }

  /** Data_Definition::add_to_scope and Function_Definition::add_to_scope:
      begin_unit, then add_binding, whose slot the definition keeps;
      Recursive_Scope::end_unit does nothing. */
  function AddDefinition(st: RecScope, def: Definition): (r: Result<RecScope>)
    ensures r.Ok? && WellFormed(st) ==> WellFormed(r.value)
  {
    var (st1, u) := BeginUnit(st, def);
    var b :- AddBinding(st1, def.name, u);
    Ok(b.0.(units := b.0.units[u := b.0.units[u].(slot := b.1)]))
  }

  /** Recursive_Scope::add_action: statements wait until every binding exists. */
  function AddAction(st: RecScope, refs: seq<Name>): RecScope
  {
    st.(actionPhrases := st.actionPhrases + [refs])
  }

  function AddEntry(st: RecScope, e: Entry): (r: Result<RecScope>)
    ensures r.Ok? && WellFormed(st) ==> WellFormed(r.value)
  {
    match e
    case ActionEntry(refs) => Ok(AddAction(st, refs))
    case DefEntry(def) => AddDefinition(st, def)
  }

  /** Compound_Definition_Base::add_to_scope, in source order. */
  function AddToScope(st: RecScope, entries: seq<Entry>): (r: Result<RecScope>)
    ensures r.Ok? && WellFormed(st) ==> WellFormed(r.value)
    decreases |entries|
  {
    if |entries| == 0 then Ok(st)
    else
      var st1 :- AddEntry(st, entries[0]);
      AddToScope(st1, entries[1..])
  }

  // ---------------------------------------------------------------------
  // The steps of analyze_unit

  /** The meaning the scope gives a name, whatever analysis it triggers:
      a reference to its slot if the scope binds it, else the enclosing
      scopes' meaning. */
  function ScopeExpr(st: RecScope, n: Name): (e: Expr)
    ensures e.name == n
    ensures e.ReadsSlot() <==> n in st.dict
    ensures e.ReadsSlot() ==> e.slot == st.dict[n].slot
    ensures e.Constant? <==> n !in st.dict && n in st.constants
  {
    if n in st.dict then SlotRef(st.target, n, st.dict[n].slot) else OuterExpr(st.constants, n)
  }

  /** The meaning a lookup in `env` hands back for `n`: the scope's meaning,
      except that inside a function a meaning that is not a constant is
      replaced by a symbolic reference to its capture. */
  function EnvExpr(st: RecScope, n: Name, env: Env): (e: Expr)
    ensures e.name == n
  {
    var m := ScopeExpr(st, n);
    if env.CaptureEnv? && !m.Constant? then SymbolicRef(n) else m
  }

  /** First visit: the unit goes in progress with the next discovery number
      as both its ord and its lowlink, onto both stacks. */
  function Discover(st: RecScope, i: nat): RecScope
    requires i < |st.units|
  {
    var u := st.units[i].(state := InProgress, ord := st.sccCount, lowlink := st.sccCount);
    st.(units := st.units[i := u], sccCount := st.sccCount + 1,
        sccStack := st.sccStack + [i], analysisStack := st.analysisStack + [i])
  }

  /** The unit's right-hand side has been analysed: keep it, leave the
      analysis stack. */
  function FinishAnalysis(st: RecScope, i: nat, body: seq<Expr>): RecScope
    requires i < |st.units| && |st.analysisStack| > 0
  {
    st.(units := st.units[i := st.units[i].(body := body)],
        analysisStack := st.analysisStack[..|st.analysisStack| - 1])
  }

  /** Lower the lowlink of the unit on top of the analysis stack to `low`. */
  function LowerParent(st: RecScope, low: nat): (st': RecScope)
    requires WellFormed(st) && |st.analysisStack| > 0
    ensures Evolves(st, st')
  {
    var p := st.analysisStack[|st.analysisStack| - 1];
    var lowered := if low < st.units[p].lowlink then low else st.units[p].lowlink;
    st.(units := st.units[p := st.units[p].(lowlink := lowered)])
  }

  /** After a first visit: pass a smaller lowlink on to the parent; a data
      definition that does so is part of a cycle. */
  function PropagateLowlink(st: RecScope, i: nat, id: Name): (r: Result<RecScope>)
    requires WellFormed(st) && i < |st.units|
    ensures r.Err? <==> |st.analysisStack| > 0 && st.units[i].def.IsData()
                        && st.units[i].lowlink < st.units[st.analysisStack[|st.analysisStack| - 1]].lowlink
    ensures r.Err? ==> r.error == IllegalRecursiveReference(id)
    ensures r.Ok? ==> Evolves(st, r.value)
  {
    if |st.analysisStack| > 0 then
      var p := st.analysisStack[|st.analysisStack| - 1];
      if st.units[i].lowlink < st.units[p].lowlink then
        if st.units[i].def.IsData() then Err(IllegalRecursiveReference(id))
        else Ok(LowerParent(st, st.units[i].lowlink))
      else Ok(st)
    else Ok(st)
  }

  /** The first position of `x` in `s`, or |s|. */
  function IndexOf(s: seq<nat>, x: nat): (r: nat)
    ensures r <= |s|
    ensures r < |s| ==> s[r] == x
    ensures forall k :: 0 <= k < r ==> s[k] != x
  {
    if |s| == 0 then 0 else if s[0] == x then 0 else 1 + IndexOf(s[1..], x)
  }

  function MarkAnalyzed(units: seq<Unit>, group: seq<nat>): (r: seq<Unit>)
    ensures |r| == |units|
    ensures forall k :: 0 <= k < |units| ==> r[k] == if k in group then units[k].(state := Analyzed) else units[k]
  {
    seq(|units|, k requires 0 <= k < |units| => if k in group then units[k].(state := Analyzed) else units[k])
  }

  /** A data definition that is the root of its component is the whole
      component: pop it (it is the top of the SCC stack), mark it analysed
      and emit its data setter. */
  function EmitData(st: RecScope, i: nat): (st': RecScope)
    requires WellFormed(st) && i < |st.units|
    ensures st'.sccStack == (if |st.sccStack| > 0 then st.sccStack[..|st.sccStack| - 1] else [])
    ensures st'.units == st.units[i := st.units[i].(state := Analyzed)]
    ensures |st'.actions| == |st.actions| + 1 && st.actions <= st'.actions
    ensures Writes(st'.actions[|st.actions|]) == [st.units[i].slot]
    ensures Reads(st'.actions[|st.actions|]) == ExprReads(st.units[i].body)
    ensures Evolves(st, st')
  {
    var s := st.sccStack;
    var a := MakeDataSetter(st.target, st.units[i].slot, st.units[i].def.name, st.units[i].body);
    st.(sccStack := if |s| > 0 then s[..|s| - 1] else [],
        units := st.units[i := st.units[i].(state := Analyzed)],
        actions := st.actions + [a])
  }

  /** A function unit that is the root of its component: everything from it
      to the top of the SCC stack is the component.  Pop it, mark its units
      analysed and emit one function setter for all of them. */
  function EmitGroup(st: RecScope, i: nat): (r: Result<RecScope>)
    requires WellFormed(st) && i < |st.units|
    ensures var ui := IndexOf(st.sccStack, i); var group := st.sccStack[ui..];
      && (r.Err? <==> HasData(st.units, group))
      && (r.Ok? ==> var st' := r.value;
          && st' == st.(sccStack := st.sccStack[..ui], units := MarkAnalyzed(st.units, group), actions := st'.actions)
          && |st'.actions| == |st.actions| + 1 && st.actions <= st'.actions
          && Writes(st'.actions[|st.actions|]) == GroupSlots(st.units, group))
  {
    var ui := IndexOf(st.sccStack, i);
    var group := st.sccStack[ui..];
    var setter :- MakeFunctionSetter(st.target, st.units, group);
    SetterWrites(st.target, st.units, group);
    Ok(st.(sccStack := st.sccStack[..ui],
           units := MarkAnalyzed(st.units, group),
           actions := st.actions + [setter]))
  }

  /** The action a group emits is the group's function setter. */
  lemma EmitGroupSetter(st: RecScope, i: nat)
    requires WellFormed(st) && i < |st.units|
    requires EmitGroup(st, i).Ok?
    ensures var ui := IndexOf(st.sccStack, i);
      MakeFunctionSetter(st.target, st.units, st.sccStack[ui..]) == Ok(EmitGroup(st, i).value.actions[|st.actions|])
  {
  }

  lemma EmitGroupEvolves(st: RecScope, i: nat)
    requires WellFormed(st) && i < |st.units|
    requires EmitGroup(st, i).Ok?
    ensures Evolves(st, EmitGroup(st, i).value)
  {
    var st' := EmitGroup(st, i).value;
    var ui := IndexOf(st.sccStack, i);
    MarkAnalyzedEvolves(st.units, st.sccStack[ui..]);
    assert forall k :: 0 <= k < |st'.sccStack| ==> st'.sccStack[k] == st.sccStack[k];
  }

  lemma MarkAnalyzedEvolves(units: seq<Unit>, group: seq<nat>)
    ensures UnitsEvolve(units, MarkAnalyzed(units, group))
    ensures forall k :: 0 <= k < |units| ==> MarkAnalyzed(units, group)[k].nonlocals == units[k].nonlocals
  {
  }

  /** The unit is the root of its component: emit the component. */
  function EmitComponent(st: RecScope, i: nat): (r: Result<RecScope>)
    requires WellFormed(st) && i < |st.units|
    ensures r.Ok? ==> Evolves(st, r.value)
    ensures r.Ok? && st.units[i].state.InProgress? && IndexOf(st.sccStack, i) < |st.sccStack| ==> r.value.units[i].state.Analyzed?
  {
    if st.units[i].def.IsData() then Ok(EmitData(st, i))
    else
      var r := EmitGroup(st, i);
      if r.Ok? then EmitGroupEvolves(st, i); r else r
  }

  /** What follows a first visit once the right-hand side is analysed: pass
      the lowlink on, and emit the component if the unit is its root. */
  function Complete(st: RecScope, i: nat, id: Name): (r: Result<RecScope>)
    requires WellFormed(st) && i < |st.units|
    ensures r.Ok? ==> Evolves(st, r.value)
    ensures r.Ok? && !st.units[i].state.NotAnalyzed? ==> !r.value.units[i].state.NotAnalyzed?
  {
    var st3 :- PropagateLowlink(st, i, id);
    if st3.units[i].lowlink == st3.units[i].ord then
      var st4 :- EmitComponent(st3, i);
      EvolvesTrans(st, st3, st4);
      Ok(st4)
    else Ok(st3)
  }

  /** Discovering a unit and later leaving the analysis stack again restores
      the stack and leaves the unit started. */
  lemma AroundEvolves(st: RecScope, i: nat, mid: RecScope, body: seq<Expr>)
    requires WellFormed(st) && i < |st.units|
    requires Evolves(Discover(st, i), mid)
    ensures |mid.analysisStack| > 0
    ensures Evolves(st, FinishAnalysis(mid, i, body))
    ensures FinishAnalysis(mid, i, body).units[i].state.InProgress? || !mid.units[i].state.NotAnalyzed?
  {
    assert mid.analysisStack[..|st.analysisStack|] == st.analysisStack;
  }

  // ---------------------------------------------------------------------
  // Lazy analysis: analyze_unit and the lookups that drive it

  /** Recursive_Scope::analyze_unit, for the unit with index `i`, reached
      through a reference named `id`. */
  function AnalyzeUnit(st: RecScope, i: nat, id: Name): (r: Result<RecScope>)
    requires WellFormed(st) && i < |st.units|
    ensures r.Ok? ==> Evolves(st, r.value) && !r.value.units[i].state.NotAnalyzed?
    decreases CountFresh(st.units), 1, 0
  {
    var u := st.units[i];
    match u.state
    case Analyzed => Ok(st)
    case InProgress =>
      if u.def.IsData() then Err(IllegalRecursiveReference(id))
      else if |st.analysisStack| == 0 then Ok(st)
      else Ok(LowerParent(st, u.ord))
    case NotAnalyzed => Visit(st, i, id)
  }

  /** The first visit of a unit: discover it, analyse its right-hand side
      (a data definition in the scope itself, a function through its capture
      environment), then complete it. */
  function Visit(st: RecScope, i: nat, id: Name): (r: Result<RecScope>)
    requires WellFormed(st) && i < |st.units| && st.units[i].state.NotAnalyzed?
    ensures r.Ok? ==> Evolves(st, r.value) && !r.value.units[i].state.NotAnalyzed?
    decreases CountFresh(st.units), 0, 0
  {
    var u := st.units[i];
    var st1 := Discover(st, i);
    CountFreshLt(st.units, st1.units, i);
    var res :- Resolve(st1, u.def.refs, if u.def.IsData() then ScopeEnv else CaptureEnv(i));
    AroundEvolves(st, i, res.0, res.1);
    var st2 := FinishAnalysis(res.0, i, res.1);
    var st3 :- Complete(st2, i, id);
    EvolvesTrans(st, st2, st3);
    Ok(st3)
  }

  /** Recursive_Scope::single_lookup: a name the scope binds has its unit
      analysed first, then yields a reference to its slot. */
  function SingleLookup(st: RecScope, n: Name): (r: Result<(RecScope, Option<Expr>)>)
    requires WellFormed(st)
    ensures r.Ok? ==> Evolves(st, r.value.0)
    ensures r.Ok? ==> (r.value.1.Some? <==> n in st.dict)
    ensures r.Ok? && n in st.dict ==> r.value.1.value == ScopeExpr(st, n)
                                      && !r.value.0.units[st.dict[n].unit].state.NotAnalyzed?
    ensures n !in st.dict ==> r == Ok((st, None))
    decreases CountFresh(st.units), 2, 0
  {
    if n in st.dict then
      var st1 :- AnalyzeUnit(st, st.dict[n].unit, n);
      Ok((st1, Some(SlotRef(st.target, n, st.dict[n].slot))))
    else Ok((st, None))
  }

  /** Lookup through the environment chain: this scope, then outward. */
  function Lookup(st: RecScope, n: Name): (r: Result<(RecScope, Expr)>)
    requires WellFormed(st)
    ensures r.Ok? ==> Evolves(st, r.value.0) && r.value.1 == ScopeExpr(st, n)
    decreases CountFresh(st.units), 3, 0
  {
    var p :- SingleLookup(st, n);
    match p.1
    case Some(e) => Ok((p.0, e))
    case None => Ok((p.0, OuterExpr(st.constants, n)))
  }

  /** Function_Environ::single_lookup: inside the function unit `owner`, a
      constant is used as it is; any other meaning is captured as a nonlocal
      of the unit and referred to symbolically. */
  function CaptureLookup(st: RecScope, owner: nat, n: Name): (r: Result<(RecScope, Expr)>)
    requires WellFormed(st) && owner < |st.units|
    ensures r.Ok? ==> Evolves(st, r.value.0)
    ensures r.Ok? ==> var e := ScopeExpr(st, n);
      && (e.Constant? ==> r.value.1 == e)
      && (!e.Constant? ==> r.value.1 == SymbolicRef(n) && Capture(n, e) in r.value.0.units[owner].nonlocals)
    decreases CountFresh(st.units), 4, 0
  {
    var p :- Lookup(st, n);
    if p.1.Constant? then Ok(p)
    else
      var st1 := p.0;
      var caps := st1.units[owner].nonlocals;
      RecordNonlocalDistinct(caps, n, p.1);
      var u := st1.units[owner].(nonlocals := RecordNonlocal(caps, n, p.1));
      Ok((st1.(units := st1.units[owner := u]), SymbolicRef(n)))
  }

  /** A lookup in the given environment. */
  function EnvLookup(st: RecScope, n: Name, env: Env): (r: Result<(RecScope, Expr)>)
    requires WellFormed(st) && (env.CaptureEnv? ==> env.owner < |st.units|)
    ensures r.Ok? ==> Evolves(st, r.value.0) && r.value.1 == EnvExpr(st, n, env)
    decreases CountFresh(st.units), 5, 0
  {
    match env
    case ScopeEnv => Lookup(st, n)
    case CaptureEnv(owner) => CaptureLookup(st, owner, n)
  }

  /** The expression analyser, as far as binding goes: look up each name of
      a right-hand side, in order, threading the scope state through. */
  function Resolve(st: RecScope, refs: seq<Name>, env: Env): (r: Result<(RecScope, seq<Expr>)>)
    requires WellFormed(st) && (env.CaptureEnv? ==> env.owner < |st.units|)
    ensures r.Ok? ==> Evolves(st, r.value.0)
    ensures r.Ok? ==> |r.value.1| == |refs| && forall k :: 0 <= k < |refs| ==> r.value.1[k] == EnvExpr(st, refs[k], env)
    decreases CountFresh(st.units), 6, |refs|
  {
    if |refs| == 0 then Ok((st, []))
    else
      var p :- EnvLookup(st, refs[0], env);
      EvolvesCount(st, p.0);
      var q :- Resolve(p.0, refs[1..], env);
      EvolvesTrans(st, p.0, q.0);
      EnvExprsKept(st, p.0, refs[1..], env);
      Ok((q.0, [p.1] + q.1))
  }

  /** The meanings of names do not change as analysis proceeds: they depend
      only on the bindings, the target and the enclosing constants. */
  lemma EnvExprsKept(st: RecScope, st': RecScope, refs: seq<Name>, env: Env)
    requires st'.dict == st.dict && st'.target == st.target && st'.constants == st.constants
    ensures forall k :: 0 <= k < |refs| ==> EnvExpr(st', refs[k], env) == EnvExpr(st, refs[k], env)
  {
  }

  // ---------------------------------------------------------------------
  // Recursive_Scope::analyze

  /** The statements, in order, each after the definitions it uses. */
  function AnalyzeActions(st: RecScope, k: nat): (r: Result<RecScope>)
    requires WellFormed(st) && k <= |st.actionPhrases|
    ensures r.Ok? ==> Evolves(st, r.value)
    decreases |st.actionPhrases| - k
  {
    if k == |st.actionPhrases| then Ok(st)
    else
      var p :- Resolve(st, st.actionPhrases[k], ScopeEnv);
      var st1 := p.0.(actions := p.0.actions + [Statement(p.1)]);
      var st2 :- AnalyzeActions(st1, k + 1);
      EvolvesTrans(st, st1, st2);
      Ok(st2)
  }

  /** Every unit no statement reached, in registration order. */
  function AnalyzeRemaining(st: RecScope, k: nat): (r: Result<RecScope>)
    requires WellFormed(st) && k <= |st.units|
    ensures r.Ok? ==> Evolves(st, r.value)
    ensures r.Ok? ==> forall j :: k <= j < |st.units| ==> !r.value.units[j].state.NotAnalyzed?
    decreases |st.units| - k
  {
    if k == |st.units| then Ok(st)
    else if st.units[k].state.NotAnalyzed? then
      var st1 :- AnalyzeUnit(st, k, st.units[k].def.name);
      var st2 :- AnalyzeRemaining(st1, k + 1);
      EvolvesTrans(st, st1, st2);
      Ok(st2)
    else
      var st2 :- AnalyzeRemaining(st, k + 1);
      Ok(st2)
  }

  /** The module dictionary: each bound name with its field index. */
  function SlotMap(dict: map<Name, Binding>): (m: map<Name, nat>)
    ensures m.Keys == dict.Keys
    ensures forall n :: n in dict ==> m[n] == dict[n].slot
  {
    map n | n in dict :: dict[n].slot
  }

  /** Recursive_Scope::analyze. */
  function Analyze(target: Target, constants: set<Name>, firstSlot: nat, entries: seq<Entry>): Result<Executable>
  {
    var st :- AddToScope(EmptyScope(target, constants, firstSlot), entries);
    var st1 :- AnalyzeActions(st, 0);
    var st2 :- AnalyzeRemaining(st1, 0);
    Ok(Executable(st2.actions, if target.Module? then Some(SlotMap(st2.dict)) else None))
  }
}
