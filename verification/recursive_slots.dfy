/** The recursive scope initialises its own slots and no others: every slot
    an action writes is the slot of one of its units.

    The lemmas follow the mutual recursion of analyze_unit and the lookups
    it drives, with the same termination measure as the soundness proof. */
module RecursiveSlots {
  import opened Syntax
  import opened Meanings
  import opened ScopeState
  import opened FunctionSetter
  import opened RecursiveScope
  import opened Soundness

  /** Every unit's slot lies in [lo, hi). */
  ghost predicate SlotsWithin(units: seq<Unit>, lo: nat, hi: nat)
  {
    forall k :: 0 <= k < |units| ==> lo <= units[k].slot < hi
  }

  /** Every slot the actions write lies in [lo, hi). */
  ghost predicate WritesWithin(actions: seq<Action>, lo: nat, hi: nat)
  {
    forall s :: s in Written(actions) ==> lo <= s < hi
  }

  /** A well-formed scope whose units and actions keep to [lo, hi). */
  ghost predicate Within(st: RecScope, lo: nat, hi: nat)
  {
    WellFormed(st) && SlotsWithin(st.units, lo, hi) && WritesWithin(st.actions, lo, hi)
  }

  lemma AppendWithin(actions: seq<Action>, a: Action, lo: nat, hi: nat)
    requires WritesWithin(actions, lo, hi)
    requires forall s :: s in Writes(a) ==> lo <= s < hi
    ensures WritesWithin(actions + [a], lo, hi)
  {
    WriteListAppend(actions, a);
  }

  /** A step that appends one action writing slots in [lo, hi). */
  lemma GrowWithin(st: RecScope, st': RecScope, lo: nat, hi: nat)
    requires Within(st, lo, hi) && Evolves(st, st')
    requires st.actions <= st'.actions && |st'.actions| == |st.actions| + 1
    requires forall s :: s in Writes(st'.actions[|st.actions|]) ==> lo <= s < hi
    ensures Within(st', lo, hi)
  {
    assert st'.actions == st.actions + [st'.actions[|st.actions|]];
    AppendWithin(st.actions, st'.actions[|st.actions|], lo, hi);
  }

  /** A step that emits nothing. */
  lemma SameWithin(st: RecScope, st': RecScope, lo: nat, hi: nat)
    requires Within(st, lo, hi) && Evolves(st, st') && st'.actions == st.actions
    ensures Within(st', lo, hi)
  {
  }

  /** Completing a unit emits, at most, a setter for units of the scope. */
  lemma CompleteWithin(st: RecScope, i: nat, id: Name, lo: nat, hi: nat)
    requires Within(st, lo, hi) && i < |st.units| && Complete(st, i, id).Ok?
    ensures Within(Complete(st, i, id).value, lo, hi)
  {
    var st3 := PropagateLowlink(st, i, id).value;
    assert st3.actions == st.actions;
    SameWithin(st, st3, lo, hi);
    if st3.units[i].lowlink == st3.units[i].ord {
      if st3.units[i].def.IsData() {
        GrowWithin(st3, EmitData(st3, i), lo, hi);
      } else {
        EmitGroupWithin(st3, i, lo, hi);
      }
    }
  }

  lemma EmitGroupWithin(st: RecScope, i: nat, lo: nat, hi: nat)
    requires Within(st, lo, hi) && i < |st.units| && EmitGroup(st, i).Ok?
    ensures Within(EmitGroup(st, i).value, lo, hi)
  {
    var group := st.sccStack[IndexOf(st.sccStack, i)..];
    var st' := EmitGroup(st, i).value;
    EmitGroupEvolves(st, i);
    var w := Writes(st'.actions[|st.actions|]);
    assert w == GroupSlots(st.units, group);
    forall s | s in w
      ensures lo <= s < hi
    {
      var k :| 0 <= k < |w| && w[k] == s;
      assert group[k] < |st.units|;
    }
    GrowWithin(st, st', lo, hi);
  }

  lemma {:induction false} AnalyzeUnitWithin(st: RecScope, i: nat, id: Name, lo: nat, hi: nat)
    requires Within(st, lo, hi) && i < |st.units| && AnalyzeUnit(st, i, id).Ok?
    ensures Within(AnalyzeUnit(st, i, id).value, lo, hi)
    decreases CountFresh(st.units), 0, 0
  {
    if st.units[i].state.NotAnalyzed? {
      var st1 := Discover(st, i);
      CountFreshLt(st.units, st1.units, i);
      var env := if st.units[i].def.IsData() then ScopeEnv else CaptureEnv(i);
      DiscoverWithin(st, i, lo, hi);
      ResolveWithin(st1, st.units[i].def.refs, env, lo, hi);
      FirstVisitWithin(st, i, id, lo, hi);
    } else {
      StartedWithin(st, i, id, lo, hi);
    }
  }

  lemma DiscoverWithin(st: RecScope, i: nat, lo: nat, hi: nat)
    requires Within(st, lo, hi) && i < |st.units|
    ensures Within(Discover(st, i), lo, hi)
  {
  }

  /** A unit already started or analysed: at most the referrer's lowlink
      changes. */
  lemma StartedWithin(st: RecScope, i: nat, id: Name, lo: nat, hi: nat)
    requires Within(st, lo, hi) && i < |st.units| && !st.units[i].state.NotAnalyzed? && AnalyzeUnit(st, i, id).Ok?
    ensures Within(AnalyzeUnit(st, i, id).value, lo, hi)
  {
    assert AnalyzeUnit(st, i, id).value.actions == st.actions;
    SameWithin(st, AnalyzeUnit(st, i, id).value, lo, hi);
  }

  /** The first visit, once the right-hand side has been resolved. */
  lemma FirstVisitWithin(st: RecScope, i: nat, id: Name, lo: nat, hi: nat)
    requires Within(st, lo, hi) && i < |st.units| && st.units[i].state.NotAnalyzed? && AnalyzeUnit(st, i, id).Ok?
    requires var env := if st.units[i].def.IsData() then ScopeEnv else CaptureEnv(i);
      && Resolve(Discover(st, i), st.units[i].def.refs, env).Ok?
      && Within(Resolve(Discover(st, i), st.units[i].def.refs, env).value.0, lo, hi)
    ensures Within(AnalyzeUnit(st, i, id).value, lo, hi)
  {
    var mid, body, st4 := FirstVisitParts(st, i, id);
    FinishWithin(mid, i, body, id, st4, lo, hi);
  }

  /** Storing the body, then completing the unit. */
  lemma FinishWithin(mid: RecScope, i: nat, body: seq<Expr>, id: Name, st4: RecScope, lo: nat, hi: nat)
    requires Within(mid, lo, hi) && i < |mid.units| && |mid.analysisStack| > 0
    requires WellFormed(FinishAnalysis(mid, i, body)) && Complete(FinishAnalysis(mid, i, body), i, id) == Ok(st4)
    ensures Within(st4, lo, hi)
  {
    var st2 := FinishAnalysis(mid, i, body);
    assert SlotsWithin(st2.units, lo, hi);
    CompleteWithin(st2, i, id, lo, hi);
  }

  lemma {:induction false} SingleLookupWithin(st: RecScope, n: Name, lo: nat, hi: nat)
    requires Within(st, lo, hi) && SingleLookup(st, n).Ok?
    ensures Within(SingleLookup(st, n).value.0, lo, hi)
    decreases CountFresh(st.units), 1, 0
  {
    if n in st.dict {
      AnalyzeUnitWithin(st, st.dict[n].unit, n, lo, hi);
    }
  }

  lemma {:induction false} LookupWithin(st: RecScope, n: Name, lo: nat, hi: nat)
    requires Within(st, lo, hi) && Lookup(st, n).Ok?
    ensures Within(Lookup(st, n).value.0, lo, hi)
    decreases CountFresh(st.units), 2, 0
  {
    SingleLookupWithin(st, n, lo, hi);
  }

  lemma {:induction false} CaptureLookupWithin(st: RecScope, owner: nat, n: Name, lo: nat, hi: nat)
    requires Within(st, lo, hi) && owner < |st.units| && CaptureLookup(st, owner, n).Ok?
    ensures Within(CaptureLookup(st, owner, n).value.0, lo, hi)
    decreases CountFresh(st.units), 3, 0
  {
    LookupWithin(st, n, lo, hi);
    var p := Lookup(st, n).value;
    SameWithin(p.0, CaptureLookup(st, owner, n).value.0, lo, hi);
  }

  lemma {:induction false} EnvLookupWithin(st: RecScope, n: Name, env: Env, lo: nat, hi: nat)
    requires Within(st, lo, hi) && (env.CaptureEnv? ==> env.owner < |st.units|) && EnvLookup(st, n, env).Ok?
    ensures Within(EnvLookup(st, n, env).value.0, lo, hi)
    decreases CountFresh(st.units), 4, 0
  {
    match env
    case ScopeEnv => LookupWithin(st, n, lo, hi);
    case CaptureEnv(owner) => CaptureLookupWithin(st, owner, n, lo, hi);
  }

  lemma {:induction false} ResolveWithin(st: RecScope, refs: seq<Name>, env: Env, lo: nat, hi: nat)
    requires Within(st, lo, hi) && (env.CaptureEnv? ==> env.owner < |st.units|) && Resolve(st, refs, env).Ok?
    ensures Within(Resolve(st, refs, env).value.0, lo, hi)
    decreases CountFresh(st.units), 5, |refs|
  {
    if |refs| > 0 {
      EnvLookupWithin(st, refs[0], env, lo, hi);
      var p := EnvLookup(st, refs[0], env).value;
      EvolvesCount(st, p.0);
      ResolveUnfold(st, refs, env);
      ResolveWithin(p.0, refs[1..], env, lo, hi);
    }
  }

  /** The statements write nothing, and the lookups they drive write only
      slots of the scope. */
  lemma {:induction false} ActionsWithin(st: RecScope, k: nat, lo: nat, hi: nat)
    requires Within(st, lo, hi) && k <= |st.actionPhrases| && AnalyzeActions(st, k).Ok?
    ensures Within(AnalyzeActions(st, k).value, lo, hi)
    decreases |st.actionPhrases| - k
  {
    if k < |st.actionPhrases| {
      ResolveWithin(st, st.actionPhrases[k], ScopeEnv, lo, hi);
      var p := Resolve(st, st.actionPhrases[k], ScopeEnv).value;
      var st1 := p.0.(actions := p.0.actions + [Statement(p.1)]);
      AppendWithin(p.0.actions, Statement(p.1), lo, hi);
      ActionsWithin(st1, k + 1, lo, hi);
    }
  }

  lemma {:induction false} RemainingWithin(st: RecScope, k: nat, lo: nat, hi: nat)
    requires Within(st, lo, hi) && k <= |st.units| && AnalyzeRemaining(st, k).Ok?
    ensures Within(AnalyzeRemaining(st, k).value, lo, hi)
    decreases |st.units| - k
  {
    if k < |st.units| {
      if st.units[k].state.NotAnalyzed? {
        AnalyzeUnitWithin(st, k, st.units[k].def.name, lo, hi);
        RemainingWithin(AnalyzeUnit(st, k, st.units[k].def.name).value, k + 1, lo, hi);
      } else {
        RemainingWithin(st, k + 1, lo, hi);
      }
    }
  }

  // ---------------------------------------------------------------------
  // Counting the writes

  /** The elements of `w`. */
  function Elements(w: seq<nat>): (r: set<nat>)
    ensures forall s :: s in r <==> s in w
  {
    if |w| == 0 then {} else Elements(w[..|w| - 1]) + {w[|w| - 1]}
  }

  /** The slots lo, lo+1, ..., lo+n-1. */
  function Range(lo: nat, n: nat): (r: set<nat>)
    ensures forall s :: s in r <==> lo <= s < lo + n
  {
    if n == 0 then {} else Range(lo, n - 1) + {lo + n - 1}
  }

  /** A sequence without repeats has as many elements as entries. */
  lemma {:induction false} DistinctCount(w: seq<nat>)
    requires forall a, b :: 0 <= a < b < |w| ==> w[a] != w[b]
    ensures |Elements(w)| == |w|
    decreases |w|
  {
    if |w| > 0 {
      var init := w[..|w| - 1];
      DistinctCount(init);
      forall j | 0 <= j < |init|
        ensures init[j] != w[|w| - 1]
      {
        assert init[j] == w[j];
      }
      assert w[|w| - 1] !in Elements(init);
    }
  }

  lemma {:induction false} RangeCount(lo: nat, n: nat)
    ensures |Range(lo, n)| == n
    decreases n
  {
    if n > 0 {
      var r := Range(lo, n - 1);
      RangeCount(lo, n - 1);
      assert Range(lo, n) == r + {lo + n - 1};
      assert lo + n - 1 !in r;
    }
  }

  /** Actions that write each slot once, only slots in [lo, lo+n) and all
      of them, write exactly n slots. */
  lemma WriteCount(actions: seq<Action>, lo: nat, n: nat)
    requires WrittenOnce(actions) && WritesWithin(actions, lo, lo + n)
    requires forall s :: lo <= s < lo + n ==> s in Written(actions)
    ensures |WriteList(actions)| == n
  {
    var w := WriteList(actions);
    DistinctCount(w);
    RangeCount(lo, n);
    forall s | s in Elements(w)
      ensures s in Range(lo, n)
    {
      assert s in Written(actions);
    }
    forall s | s in Range(lo, n)
      ensures s in Elements(w)
    {
      assert s in Written(actions);
    }
    assert Elements(w) == Range(lo, n);
  }
}
