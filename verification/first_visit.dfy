/** The first visit of a unit by analyze_unit, after its right-hand side has
    been analysed: passing the lowlink on (lines 174-183 of definition.cc)
    and, at the root of a component, emitting the component (205-233). */
module FirstVisit {
  import opened Syntax
  import opened Meanings
  import opened ScopeState
  import opened FunctionSetter
  import opened RecursiveScope
  import opened RecursiveInvariant
  import opened RecursiveSteps

  /** `st2` is `st` after unit `i` was discovered, its right-hand side
      analysed and the analysis stack restored: `i` sits just above the SCC
      stack of `st`, units in progress in `st` are untouched, and every unit
      left above `i` is pending below `i`'s lowlink. */
  ghost predicate Visiting(st: RecScope, i: nat, st2: RecScope)
  {
    var s0 := |st.sccStack|;
    && PushedOn(st, i, st2)
    && st2.units[i].state.InProgress? && st2.units[i].ord == st.sccCount
    && (forall k :: 0 <= k < |st.units| && st.units[k].state.InProgress? ==> st2.units[k] == st.units[k])
    && (forall p :: s0 < p < |st2.sccStack| ==> Pending(st2, st2.sccStack[p], i))
    && Evolves(st, st2) && Grows(st, st2) && st.actions <= st2.actions
  }

  /** `st2` keeps the stacks of `st`, with the fresh unit `i` pushed onto
      the SCC stack just above them. */
  ghost predicate PushedOn(st: RecScope, i: nat, st2: RecScope)
  {
    var s0 := |st.sccStack|;
    && i < |st.units| && |st2.units| == |st.units|
    && st.units[i].state.NotAnalyzed?
    && s0 < |st2.sccStack| && st2.sccStack[..s0] == st.sccStack && st2.sccStack[s0] == i
    && st2.analysisStack == st.analysisStack
  }

  /** What emitting the component rooted at `i` leaves: the SCC stack as it
      was before the visit, `i` analysed, the units below untouched. */
  ghost predicate RootFrame(st: RecScope, i: nat, st2: RecScope, st4: RecScope)
  {
    && i < |st4.units| && |st4.units| == |st2.units|
    && st4.sccStack == st.sccStack && st2.actions <= st4.actions
    && st4.units[i].state.Analyzed?
    && forall k :: 0 <= k < |st2.units| && k in st.sccStack ==> st4.units[k] == st2.units[k]
  }

  /** A looked-up meaning, seen from the unit on top of the analysis stack,
      is a harmless reference of that unit. */
  lemma ResultExprOk(mid: RecScope, i: nat, body: seq<Expr>)
    requires IsTop(mid, i) && forall e :: e in body ==> ResultOk(mid, e)
    ensures forall e :: e in body ==> ExprOk(mid, i, e)
  {
    forall e | e in body
      ensures ExprOk(mid, i, e)
    {
      assert ResultOk(mid, e);
    }
  }

  /** Discover, analyse the right-hand side, finish: the result is Visiting. */
  lemma VisitingStart(st: RecScope, i: nat, mid: RecScope, body: seq<Expr>)
    requires Inv(st) && i < |st.units| && st.units[i].state.NotAnalyzed?
    requires Inv(mid) && Step(Discover(st, i), mid)
    requires forall e :: e in body ==> ResultOk(mid, e)
    ensures |mid.analysisStack| > 0
    ensures Core(FinishAnalysis(mid, i, body)) && Visiting(st, i, FinishAnalysis(mid, i, body))
  {
    VisitingCore(st, i, mid, body);
    VisitingShape(st, i, mid, body);
  }

  lemma VisitingCore(st: RecScope, i: nat, mid: RecScope, body: seq<Expr>)
    requires WellFormed(st) && i < |st.units|
    requires Core(mid) && Step(Discover(st, i), mid)
    requires forall e :: e in body ==> ResultOk(mid, e)
    ensures |mid.analysisStack| > 0 && IsTop(mid, i)
    ensures Core(FinishAnalysis(mid, i, body)) && Grows(mid, FinishAnalysis(mid, i, body))
  {
    assert mid.analysisStack == Discover(st, i).analysisStack;
    ResultExprOk(mid, i, body);
    FinishCore(mid, i, body);
  }

  lemma VisitingShape(st: RecScope, i: nat, mid: RecScope, body: seq<Expr>)
    requires StackOk(st) && i < |st.units| && st.units[i].state.NotAnalyzed?
    requires StackOk(mid) && Step(Discover(st, i), mid) && IsTop(mid, i)
    requires Grows(mid, FinishAnalysis(mid, i, body))
    ensures Visiting(st, i, FinishAnalysis(mid, i, body))
  {
    var st1 := Discover(st, i);
    var st2 := FinishAnalysis(mid, i, body);
    DiscoverGrows(st, i);
    AroundEvolves(st, i, mid, body);
    GrowsTrans(st, st1, mid);
    GrowsTrans(st, mid, st2);
    VisitingStack(st, i, mid);
    assert st2.analysisStack == st.analysisStack by {
      assert st1.analysisStack[..|st1.analysisStack| - 1] == st.analysisStack;
    }
    VisitingFrame(st, i, mid, body);
  }

  /** Units in progress before the visit are untouched by it. */
  lemma VisitingFrame(st: RecScope, i: nat, mid: RecScope, body: seq<Expr>)
    requires StackOk(st) && i < |st.units| && st.units[i].state.NotAnalyzed?
    requires Step(Discover(st, i), mid) && IsTop(mid, i)
    ensures forall k :: 0 <= k < |st.units| && st.units[k].state.InProgress? ==>
      FinishAnalysis(mid, i, body).units[k] == st.units[k]
  {
    var st1 := Discover(st, i);
    forall k | 0 <= k < |st.units| && st.units[k].state.InProgress?
      ensures FinishAnalysis(mid, i, body).units[k] == st.units[k]
    {
      assert k in st.sccStack;
      assert k != i;
      assert !IsTop(st1, k);
      assert mid.units[k] == st1.units[k];
    }
  }

  /** The SCC stack after the right-hand side of `i` was analysed. */
  lemma VisitingStack(st: RecScope, i: nat, mid: RecScope)
    requires StackOk(st) && i < |st.units| && st.units[i].state.NotAnalyzed?
    requires StackOk(mid) && Step(Discover(st, i), mid)
    ensures var s0 := |st.sccStack|;
      && s0 < |mid.sccStack| && mid.sccStack[..s0] == st.sccStack && mid.sccStack[s0] == i
      && mid.units[i].state.InProgress? && mid.units[i].ord == st.sccCount
      && forall p :: s0 < p < |mid.sccStack| ==> Pending(mid, mid.sccStack[p], i)
  {
    var st1 := Discover(st, i);
    var s0 := |st.sccStack|;
    assert st1.sccStack[s0] == i;
    assert mid.sccStack[s0] == i;
    assert mid.sccStack[..s0] == st1.sccStack[..s0] == st.sccStack;
    assert i in mid.sccStack;
  }

  // ---------------------------------------------------------------------
  // Not the root: pass the lowlink on

  /** A unit whose lowlink is below its ord was reached from a function
      below it on the SCC stack, so some analysis is under way. */
  lemma NotRootHasParent(st: RecScope, i: nat, st2: RecScope)
    requires Inv(st) && StackOk(st2) && LowOk(st2) && Visiting(st, i, st2)
    requires st2.units[i].lowlink != st2.units[i].ord
    ensures |st.analysisStack| > 0
    ensures exists q: nat :: FunctionAt(st2, q) && st2.units[st2.sccStack[q]].ord == st2.units[i].lowlink
  {
    var s0 := |st.sccStack|;
    assert LowWitnessed(st2, s0);
    var q :| 0 <= q < s0 && FunctionAt(st2, q) && st2.units[st2.sccStack[q]].ord == st2.units[i].lowlink;
    assert st.sccStack[0] in st.sccStack;
  }

  /** The referrer is on the SCC stack below `i`. */
  lemma ParentBelow(st: RecScope, i: nat, st2: RecScope)
    requires StackOk(st) && StackOk(st2) && Visiting(st, i, st2) && |st.analysisStack| > 0
    ensures var t := st.analysisStack[|st.analysisStack| - 1];
      && t < |st.units| && t != i && st.units[t].state.InProgress? && st2.units[t] == st.units[t]
      && (exists pt :: 0 <= pt < |st.sccStack| && st2.sccStack[pt] == t)
      && forall p :: |st.sccStack| <= p < |st2.sccStack| ==> st2.sccStack[p] != t
  {
    var t := st.analysisStack[|st.analysisStack| - 1];
    var s0 := |st.sccStack|;
    assert t in st.sccStack;
    var pt :| 0 <= pt < s0 && st.sccStack[pt] == t;
    assert st2.sccStack[pt] == t;
    StackDistinct(st2);
  }

  lemma NonRootSound(st: RecScope, i: nat, id: Name, st2: RecScope, st4: RecScope)
    requires Inv(st) && Core(st2) && Visiting(st, i, st2)
    requires st2.units[i].lowlink != st2.units[i].ord
    requires Complete(st2, i, id) == Ok(st4)
    ensures Inv(st4) && Step(st, st4) && Reached(st4, i)
  {
    NonRootFacts(st, i, st2);
    PropagateKeepsCore(st2, i, id);
    var st3 := PropagateLowlink(st2, i, id).value;
    assert st3.units[i] == st2.units[i];
    assert st4 == st3;
    NonRootStep(st, i, st2, st4);
  }

  /** A unit that is not a root has a referrer, below it on the SCC stack,
      and its lowlink is one the referrer may take. */
  lemma NonRootFacts(st: RecScope, i: nat, st2: RecScope)
    requires Inv(st) && StackOk(st2) && LowOk(st2) && Visiting(st, i, st2)
    requires st2.units[i].lowlink != st2.units[i].ord
    ensures |st.analysisStack| > 0 && st2.units[i].lowlink < st2.units[i].ord
    ensures LowAllowed(st2, st2.units[i].lowlink)
    ensures var t := st.analysisStack[|st.analysisStack| - 1];
      && t < |st.units| && t != i
      && forall p :: |st.sccStack| <= p < |st2.sccStack| ==> st2.sccStack[p] != t
  {
    NotRootHasParent(st, i, st2);
    ParentBelow(st, i, st2);
    LowLeOrd(st2, |st.sccStack|);
  }

  /** Passing a permitted lowlink on keeps the core invariant and changes
      only the referrer, whose lowlink does not rise above it. */
  lemma PropagateKeepsCore(st2: RecScope, i: nat, id: Name)
    requires Core(st2) && i < |st2.units| && |st2.analysisStack| > 0
    requires LowAllowed(st2, st2.units[i].lowlink)
    requires PropagateLowlink(st2, i, id).Ok?
    ensures var st3 := PropagateLowlink(st2, i, id).value;
      var t := st2.analysisStack[|st2.analysisStack| - 1];
      && Core(st3) && Grows(st2, st3)
      && st3.sccStack == st2.sccStack && st3.actions == st2.actions
      && (forall k :: 0 <= k < |st2.units| && k != t ==> st3.units[k] == st2.units[k])
      && st3.units[t].lowlink <= st2.units[i].lowlink
  {
    var t := st2.analysisStack[|st2.analysisStack| - 1];
    if st2.units[i].lowlink < st2.units[t].lowlink {
      LowerParentSound(st2, st2.units[i].lowlink);
    }
  }

  /** The Step from `st` to the state after passing the lowlink on. */
  lemma NonRootStep(st: RecScope, i: nat, st2: RecScope, st4: RecScope)
    requires Core(st4) && Visiting(st, i, st2) && |st.analysisStack| > 0
    requires st2.units[i].lowlink < st2.units[i].ord
    requires Evolves(st2, st4) && Grows(st2, st4) && st4.sccStack == st2.sccStack && st4.actions == st2.actions
    requires var t := st.analysisStack[|st.analysisStack| - 1];
      && t < |st.units| && t != i
      && (forall p :: |st.sccStack| <= p < |st2.sccStack| ==> st2.sccStack[p] != t)
      && (forall k :: 0 <= k < |st.units| && k != t ==> st4.units[k] == st2.units[k])
      && st4.units[t].lowlink <= st2.units[i].lowlink
    ensures Inv(st4) && Step(st, st4) && Reached(st4, i)
  {
    EvolvesTrans(st, st2, st4);
    GrowsTrans(st, st2, st4);
    NonRootPending(st, i, st2, st4);
    NonRootFrame(st, i, st2, st4);
    NonRootReached(st, i, st2, st4);
  }

  lemma NonRootFrame(st: RecScope, i: nat, st2: RecScope, st4: RecScope)
    requires Visiting(st, i, st2) && |st.analysisStack| > 0
    requires st4.sccStack == st2.sccStack && st4.actions == st2.actions && |st4.units| == |st2.units|
    requires var t := st.analysisStack[|st.analysisStack| - 1];
      forall k :: 0 <= k < |st.units| && k != t ==> st4.units[k] == st2.units[k]
    ensures st.sccStack <= st4.sccStack && st.actions <= st4.actions
    ensures forall k :: 0 <= k < |st.units| && st.units[k].state.InProgress? && !IsTop(st, k) ==> st4.units[k] == st.units[k]
  {
  }

  lemma NonRootReached(st: RecScope, i: nat, st2: RecScope, st4: RecScope)
    requires Visiting(st, i, st2) && |st.analysisStack| > 0 && |st4.units| == |st2.units|
    requires st2.units[i].lowlink < st2.units[i].ord && st4.analysisStack == st2.analysisStack
    requires var t := st.analysisStack[|st.analysisStack| - 1];
      && t < |st.units| && t != i
      && st4.units[i] == st2.units[i] && st4.units[t].state.InProgress?
      && st4.units[t].lowlink <= st2.units[i].lowlink
    ensures Reached(st4, i)
  {
  }

  lemma NonRootPending(st: RecScope, i: nat, st2: RecScope, st4: RecScope)
    requires Visiting(st, i, st2) && |st.analysisStack| > 0
    requires st2.units[i].lowlink < st2.units[i].ord
    requires st4.sccStack == st2.sccStack && |st4.units| == |st2.units|
    requires var t := st.analysisStack[|st.analysisStack| - 1];
      && t < |st.units| && t != i
      && (forall p :: |st.sccStack| <= p < |st2.sccStack| ==> st2.sccStack[p] != t)
      && (forall k :: 0 <= k < |st.units| && k != t ==> st4.units[k] == st2.units[k])
      && st4.units[t].lowlink <= st2.units[i].lowlink
    ensures forall p :: |st.sccStack| <= p < |st4.sccStack| ==>
      Pending(st4, st4.sccStack[p], st.analysisStack[|st.analysisStack| - 1])
  {
    var s0 := |st.sccStack|;
    var t := st.analysisStack[|st.analysisStack| - 1];
    forall p | s0 <= p < |st4.sccStack|
      ensures Pending(st4, st4.sccStack[p], t)
    {
      if p > s0 {
        assert Pending(st2, st2.sccStack[p], i);
      }
    }
  }

  // ---------------------------------------------------------------------
  // The root of a component: emit it

  /** A root keeps its lowlink to itself: the referrer was discovered
      earlier, so its lowlink is already no higher. */
  lemma RootKeepsParent(st: RecScope, i: nat, id: Name, st2: RecScope)
    requires StackOk(st) && StackOk(st2) && LowOk(st2) && Visiting(st, i, st2)
    requires st2.units[i].lowlink == st2.units[i].ord
    ensures PropagateLowlink(st2, i, id) == Ok(st2)
  {
    if |st.analysisStack| > 0 {
      ParentBelow(st, i, st2);
      var t := st.analysisStack[|st.analysisStack| - 1];
      var pt :| 0 <= pt < |st.sccStack| && st2.sccStack[pt] == t;
      LowLeOrd(st2, pt);
      assert st2.units[t].ord < st2.units[i].ord;
    }
  }

  /** Units in progress other than the root lie below it when nothing is
      left above it. */
  lemma BelowRoot(st: RecScope, i: nat, st2: RecScope)
    requires StackOk(st2) && Visiting(st, i, st2) && |st2.sccStack| == |st.sccStack| + 1
    ensures forall j :: 0 <= j < |st2.units| && j != i && st2.units[j].state.InProgress? ==>
      st2.units[j].ord < st2.units[i].ord
  {
    var s0 := |st.sccStack|;
    forall j | 0 <= j < |st2.units| && j != i && st2.units[j].state.InProgress?
      ensures st2.units[j].ord < st2.units[i].ord
    {
      var pj :| 0 <= pj < |st2.sccStack| && st2.sccStack[pj] == j;
      assert pj < s0;
    }
  }

  /** Whatever is left above a root was reached from a function at or above
      the root; a data root therefore has nothing above it. */
  lemma DataRootAlone(st: RecScope, i: nat, st2: RecScope)
    requires StackOk(st2) && LowOk(st2) && Visiting(st, i, st2)
    requires st2.units[i].lowlink == st2.units[i].ord
    ensures |st2.sccStack| > |st.sccStack| + 1 ==> !st2.units[i].def.IsData()
  {
    var s0 := |st.sccStack|;
    if |st2.sccStack| > s0 + 1 {
      assert Pending(st2, st2.sccStack[s0 + 1], i);
      assert LowWitnessed(st2, s0 + 1);
      var q :| 0 <= q < s0 + 1 && FunctionAt(st2, q) && st2.units[st2.sccStack[q]].ord == st2.units[st2.sccStack[s0 + 1]].lowlink;
      assert q == s0;
    }
  }

  /** The right-hand side of a data root reads only initialised slots. */
  lemma DataReads(st: RecScope, i: nat, st2: RecScope)
    requires Core(st2) && Visiting(st, i, st2) && |st2.sccStack| == |st.sccStack| + 1
    requires st2.units[i].lowlink == st2.units[i].ord && st2.units[i].def.IsData()
    ensures ExprReads(st2.units[i].body) <= Written(st2.actions)
  {
    BelowRoot(st, i, st2);
    forall s | s in ExprReads(st2.units[i].body)
      ensures s in Written(st2.actions)
    {
      var e :| e in st2.units[i].body && e.ReadsSlot() && e.slot == s;
      assert ExprOk(st2, i, e);
    }
  }

  /** Emitting a data root leaves the SCC stack as it was before the visit. */
  lemma DataRootSound(st: RecScope, i: nat, st2: RecScope)
    requires StackOk(st) && Core(st2) && Visiting(st, i, st2)
    requires st2.units[i].lowlink == st2.units[i].ord && st2.units[i].def.IsData()
    ensures var st4 := EmitData(st2, i);
      Core(st4) && Grows(st2, st4) && Evolves(st2, st4) && RootFrame(st, i, st2, st4)
  {
    var a := DataRootAction(st, i, st2);
    EmitSound(st2, |st.sccStack|, a, EmitData(st2, i));
  }

  /** The data setter of a data root reads only initialised slots and
      writes the root's slot. */
  lemma DataRootAction(st: RecScope, i: nat, st2: RecScope) returns (a: Action)
    requires StackOk(st) && Core(st2) && Visiting(st, i, st2)
    requires st2.units[i].lowlink == st2.units[i].ord && st2.units[i].def.IsData()
    ensures var s0 := |st.sccStack|;
      && Emitted(st2, s0, a, EmitData(st2, i)) && AnalysisBelow(st2, s0)
      && Reads(a) <= Written(st2.actions)
      && InUnits(st2.units, st2.sccStack[s0..])
      && Writes(a) == GroupSlots(st2.units, st2.sccStack[s0..])
      && RootFrame(st, i, st2, EmitData(st2, i))
  {
    DataRootAlone(st, i, st2);
    DataReads(st, i, st2);
    a := DataEmitted(st, i, st2);
  }

  lemma DataEmitted(st: RecScope, i: nat, st2: RecScope) returns (a: Action)
    requires StackOk(st) && WellFormed(st2) && PushedOn(st, i, st2)
    requires |st2.sccStack| == |st.sccStack| + 1
    ensures var s0 := |st.sccStack|; var st4 := EmitData(st2, i);
      && Emitted(st2, s0, a, st4) && AnalysisBelow(st2, s0)
      && Reads(a) == ExprReads(st2.units[i].body)
      && InUnits(st2.units, st2.sccStack[s0..])
      && Writes(a) == GroupSlots(st2.units, st2.sccStack[s0..])
      && RootFrame(st, i, st2, st4)
  {
    a := DataEmittedShape(st, i, st2);
    DataEmittedKeeps(st, i, st2);
  }

  lemma DataEmittedShape(st: RecScope, i: nat, st2: RecScope) returns (a: Action)
    requires WellFormed(st2) && i < |st2.units|
    requires |st2.sccStack| == |st.sccStack| + 1
    requires st2.sccStack[..|st.sccStack|] == st.sccStack && st2.sccStack[|st.sccStack|] == i
    ensures var st4 := EmitData(st2, i); var s0 := |st.sccStack|;
      && Emitted(st2, s0, a, st4)
      && Reads(a) == ExprReads(st2.units[i].body)
      && InUnits(st2.units, st2.sccStack[s0..])
      && Writes(a) == GroupSlots(st2.units, st2.sccStack[s0..])
      && st4.sccStack == st.sccStack
  {
    var s0 := |st.sccStack|;
    var st4 := EmitData(st2, i);
    a := st4.actions[|st2.actions|];
    assert st4.actions == st2.actions + [a];
    assert st2.sccStack[s0..] == [i];
    assert st4.sccStack == st2.sccStack[..s0];
  }

  lemma DataEmittedKeeps(st: RecScope, i: nat, st2: RecScope)
    requires StackOk(st) && WellFormed(st2) && PushedOn(st, i, st2)
    requires |st2.sccStack| == |st.sccStack| + 1
    ensures var st4 := EmitData(st2, i);
      && AnalysisBelow(st2, |st.sccStack|)
      && forall k :: 0 <= k < |st2.units| && k in st.sccStack ==> st4.units[k] == st2.units[k]
  {
    var s0 := |st.sccStack|;
    forall k | 0 <= k < |st2.analysisStack|
      ensures st2.analysisStack[k] in st2.sccStack[..s0]
    {
      assert st.analysisStack[k] in st.sccStack;
    }
    assert forall k :: k in st.sccStack ==> k != i;
  }

  /** Unit `i` at position `s0` of the SCC stack is a root and everything
      above it is pending below it. */
  ghost predicate AboveRoot(st2: RecScope, s0: nat, i: nat)
  {
    && s0 < |st2.sccStack| && st2.sccStack[s0] == i && i < |st2.units|
    && st2.units[i].lowlink == st2.units[i].ord
    && forall p :: s0 < p < |st2.sccStack| ==> Pending(st2, st2.sccStack[p], i)
  }

  lemma VisitingAboveRoot(st: RecScope, i: nat, st2: RecScope)
    requires Visiting(st, i, st2) && st2.units[i].lowlink == st2.units[i].ord
    ensures AboveRoot(st2, |st.sccStack|, i)
  {
  }

  /** Members of the component have lowlinks no lower than the root's ord. */
  lemma MemberLowlink(st2: RecScope, s0: nat, i: nat, m: nat)
    requires WellFormed(st2) && AboveRoot(st2, s0, i) && s0 <= m < |st2.sccStack|
    ensures st2.units[i].ord <= st2.units[st2.sccStack[m]].lowlink
  {
    if m > s0 {
      assert Pending(st2, st2.sccStack[m], i);
    }
  }

  /** A capture of a member of the component being emitted refers to a unit
      already initialised, or to a member of the component itself (whose
      value the group setter supplies as a lambda). */
  lemma CaptureReach(st2: RecScope, s0: nat, i: nat, m: nat, c: Capture)
    requires RegOk(st2) && StackOk(st2) && AboveRoot(st2, s0, i)
    requires s0 <= m < |st2.sccStack| && c.expr.ReadsSlot() && c.expr.name == c.name
    requires ExprOk(st2, st2.sccStack[m], c.expr)
    ensures c.name in st2.dict && c.expr.slot == st2.units[st2.dict[c.name].unit].slot
    ensures InUnits(st2.units, st2.sccStack[s0..])
    ensures || st2.units[st2.dict[c.name].unit].state.Analyzed?
            || c.name in MemberNames(st2.units, st2.sccStack[s0..])
  {
    var u := st2.sccStack[m];
    var j := st2.dict[c.name].unit;
    assert RefOk(st2, u, j);
    if st2.units[j].state.InProgress? {
      var q := InComponent(st2, s0, i, m, j);
      MemberNameAt(st2.units, st2.sccStack[s0..], q - s0);
    }
  }

  /** A unit in progress that a member of the component may refer to is
      itself a member. */
  lemma InComponent(st2: RecScope, s0: nat, i: nat, m: nat, j: nat) returns (q: nat)
    requires StackOk(st2) && AboveRoot(st2, s0, i) && s0 <= m < |st2.sccStack|
    requires j < |st2.units| && st2.units[j].state.InProgress?
    requires st2.units[st2.sccStack[m]].lowlink <= st2.units[j].ord
    ensures s0 <= q < |st2.sccStack| && st2.sccStack[q] == j
  {
    MemberLowlink(st2, s0, i, m);
    assert j in st2.sccStack;
    StackPosition(st2, s0, j);
    q :| s0 <= q < |st2.sccStack| && st2.sccStack[q] == j;
  }

  lemma MemberNameAt(units: seq<Unit>, group: seq<nat>, q: nat)
    requires InUnits(units, group) && q < |group|
    ensures units[group[q]].def.name in MemberNames(units, group)
  {
    assert MemberNames(units, group)[q] == units[group[q]].def.name;
  }

  /** Captures of the members above position `s0` under names that are not
      members' read initialised slots. */
  ghost predicate OuterCapturesWritten(st2: RecScope, s0: nat)
    requires s0 <= |st2.sccStack| && InUnits(st2.units, st2.sccStack[s0..])
  {
    forall m, c ::
      (0 <= m < |st2.sccStack[s0..]| && c in st2.units[st2.sccStack[s0..][m]].nonlocals && c.expr.ReadsSlot()
       && c.name !in MemberNames(st2.units, st2.sccStack[s0..])) ==> c.expr.slot in Written(st2.actions)
  }

  lemma CapturesWritten(st2: RecScope, s0: nat, i: nat)
    requires RegOk(st2) && StackOk(st2) && RefsOk(st2) && WrittenOk(st2) && AboveRoot(st2, s0, i)
    ensures InUnits(st2.units, st2.sccStack[s0..]) && OuterCapturesWritten(st2, s0)
  {
    var group := st2.sccStack[s0..];
    forall m, c | 0 <= m < |group| && c in st2.units[group[m]].nonlocals && c.expr.ReadsSlot()
      && c.name !in MemberNames(st2.units, group)
      ensures c.expr.slot in Written(st2.actions)
    {
      var u := st2.sccStack[s0 + m];
      assert group[m] == u && u in st2.sccStack;
      assert c.expr.name == c.name && ExprOk(st2, u, c.expr);
      CaptureReach(st2, s0, i, s0 + m, c);
    }
  }

  /** The group setter of a root reads only initialised slots. */
  lemma GroupReads(st2: RecScope, s0: nat, a: Action)
    requires s0 <= |st2.sccStack| && InUnits(st2.units, st2.sccStack[s0..])
    requires OuterCapturesWritten(st2, s0) && ReadsFromCaptures(st2.units, st2.sccStack[s0..], a)
    ensures Reads(a) <= Written(st2.actions)
  {
    var group := st2.sccStack[s0..];
    forall s | s in Reads(a)
      ensures s in Written(st2.actions)
    {
      var e :| e in a.nonlocalExprs && e.ReadsSlot() && e.slot == s;
      var m, c :| 0 <= m < |group| && c in st2.units[group[m]].nonlocals && c.expr == e && c.name !in MemberNames(st2.units, group);
    }
  }

  /** The root is first found at the top of the SCC stack as it was. */
  lemma RootIndex(st: RecScope, i: nat, st2: RecScope)
    requires StackOk(st) && i < |st.units| && st.units[i].state.NotAnalyzed?
    requires |st.sccStack| < |st2.sccStack| && st2.sccStack[..|st.sccStack|] == st.sccStack && st2.sccStack[|st.sccStack|] == i
    ensures IndexOf(st2.sccStack, i) == |st.sccStack|
  {
    var s0 := |st.sccStack|;
    assert forall k :: 0 <= k < s0 ==> st2.sccStack[k] == st.sccStack[k];
    assert i !in st.sccStack;
  }

  /** The function setter of a root writes the component's slots and reads
      only what its members captured from outside it. */
  lemma GroupEmitted(st: RecScope, i: nat, st2: RecScope, st4: RecScope) returns (a: Action)
    requires StackOk(st) && StackOk(st2) && PushedOn(st, i, st2)
    requires EmitGroup(st2, i) == Ok(st4)
    ensures var s0 := |st.sccStack|;
      && Emitted(st2, s0, a, st4) && AnalysisBelow(st2, s0)
      && InUnits(st2.units, st2.sccStack[s0..])
      && Writes(a) == GroupSlots(st2.units, st2.sccStack[s0..])
      && ReadsFromCaptures(st2.units, st2.sccStack[s0..], a)
      && RootFrame(st, i, st2, st4)
  {
    var s0 := |st.sccStack|;
    RootIndex(st, i, st2);
    a := GroupEmittedShape(st2, s0, i, st4);
    SetterReadsCaptures(st2.target, st2.units, st2.sccStack[s0..], a);
    GroupEmittedFrame(st, i, st2, a, st4);
  }

  lemma GroupEmittedShape(st2: RecScope, s0: nat, i: nat, st4: RecScope) returns (a: Action)
    requires WellFormed(st2) && i < |st2.units| && IndexOf(st2.sccStack, i) == s0 && s0 <= |st2.sccStack|
    requires EmitGroup(st2, i) == Ok(st4)
    ensures Emitted(st2, s0, a, st4) && InUnits(st2.units, st2.sccStack[s0..])
    ensures Writes(a) == GroupSlots(st2.units, st2.sccStack[s0..])
    ensures MakeFunctionSetter(st2.target, st2.units, st2.sccStack[s0..]) == Ok(a)
  {
    EmitGroupSetter(st2, i);
    a := st4.actions[|st2.actions|];
    assert st4.actions == st2.actions + [a];
  }

  lemma GroupEmittedFrame(st: RecScope, i: nat, st2: RecScope, a: Action, st4: RecScope)
    requires StackOk(st) && StackOk(st2) && PushedOn(st, i, st2)
    requires Emitted(st2, |st.sccStack|, a, st4)
    ensures AnalysisBelow(st2, |st.sccStack|) && RootFrame(st, i, st2, st4)
  {
    var s0 := |st.sccStack|;
    EmitSplit(st2, s0);
    forall k | 0 <= k < |st2.analysisStack|
      ensures st2.analysisStack[k] in st2.sccStack[..s0]
    {
      assert st.analysisStack[k] in st.sccStack;
    }
    assert i in st2.sccStack[s0..];
  }

  lemma GroupRootSound(st: RecScope, i: nat, st2: RecScope, st4: RecScope)
    requires StackOk(st) && Core(st2) && Visiting(st, i, st2) && st2.units[i].lowlink == st2.units[i].ord
    requires EmitGroup(st2, i) == Ok(st4)
    ensures Core(st4) && Grows(st2, st4) && Evolves(st2, st4) && RootFrame(st, i, st2, st4)
  {
    var a := GroupEmitted(st, i, st2, st4);
    VisitingAboveRoot(st, i, st2);
    GroupRootCore(st2, |st.sccStack|, i, a, st4);
    EmitGroupEvolves(st2, i);
  }

  lemma GroupRootCore(st2: RecScope, s0: nat, i: nat, a: Action, st4: RecScope)
    requires Core(st2) && AboveRoot(st2, s0, i) && Emitted(st2, s0, a, st4) && AnalysisBelow(st2, s0)
    requires InUnits(st2.units, st2.sccStack[s0..])
    requires Writes(a) == GroupSlots(st2.units, st2.sccStack[s0..])
    requires ReadsFromCaptures(st2.units, st2.sccStack[s0..], a)
    ensures Core(st4) && Grows(st2, st4)
  {
    CapturesWritten(st2, s0, i);
    GroupReads(st2, s0, a);
    EmitSound(st2, s0, a, st4);
  }

  /** The Step from `st` to the state after emitting the component. */
  lemma RootStep(st: RecScope, i: nat, st2: RecScope, st4: RecScope)
    requires Inv(st) && Core(st4) && Visiting(st, i, st2)
    requires Evolves(st2, st4) && Grows(st2, st4) && RootFrame(st, i, st2, st4)
    ensures Inv(st4) && Step(st, st4) && Reached(st4, i)
  {
    EvolvesTrans(st, st2, st4);
    GrowsTrans(st, st2, st4);
    forall k | 0 <= k < |st.units| && st.units[k].state.InProgress? && !IsTop(st, k)
      ensures st4.units[k] == st.units[k]
    {
      assert k in st.sccStack;
    }
  }

  lemma RootSound(st: RecScope, i: nat, id: Name, st2: RecScope, st4: RecScope)
    requires Inv(st) && Core(st2) && Visiting(st, i, st2)
    requires st2.units[i].lowlink == st2.units[i].ord
    requires Complete(st2, i, id) == Ok(st4)
    ensures Inv(st4) && Step(st, st4) && Reached(st4, i)
  {
    RootKeepsParent(st, i, id, st2);
    assert EmitComponent(st2, i) == Ok(st4);
    if st2.units[i].def.IsData() {
      DataRootSound(st, i, st2);
    } else {
      GroupRootSound(st, i, st2, st4);
    }
    RootStep(st, i, st2, st4);
  }

  /** The whole first visit of a unit, given that the lookups of its
      right-hand side kept the invariant. */
  lemma FirstVisitSound(st: RecScope, i: nat, id: Name, mid: RecScope, body: seq<Expr>, st4: RecScope)
    requires Inv(st) && i < |st.units| && st.units[i].state.NotAnalyzed?
    requires Inv(mid) && Step(Discover(st, i), mid)
    requires forall e :: e in body ==> ResultOk(mid, e)
    requires WellFormed(FinishAnalysis(mid, i, body))
    requires Complete(FinishAnalysis(mid, i, body), i, id) == Ok(st4)
    ensures Inv(st4) && Step(st, st4) && Reached(st4, i)
  {
    var st2 := FinishAnalysis(mid, i, body);
    VisitingStart(st, i, mid, body);
    if st2.units[i].lowlink == st2.units[i].ord {
      RootSound(st, i, id, st2, st4);
    } else {
      NonRootSound(st, i, id, st2, st4);
    }
  }
}
