/** What the initialisation actions of a recursive scope do with the names
    each definition uses.

    The setter of a data definition reads the slot of every name of the
    scope its right-hand side uses.  The setter of a group of functions
    reads the slot of every such name outside the group (through the
    captures its members recorded) and writes the slot of every such name
    inside it (as a member lambda).  The lemmas follow the mutual
    recursion of analyze_unit and the lookups, with the same termination
    measure as Soundness, and carry a second invariant beside Inv. */
module RecursiveReferences {
  import opened Syntax
  import opened Meanings
  import opened ScopeState
  import opened FunctionSetter
  import opened RecursiveScope
  import opened RecursiveInvariant
  import opened RecursiveSteps
  import opened FirstVisit
  import opened Soundness
  import opened RecursiveAnalysis

  /** Every unit's name is bound to that unit. */
  ghost predicate NamesOk(st: RecScope)
  {
    forall k :: 0 <= k < |st.units| ==> st.units[k].def.name in st.dict && st.dict[st.units[k].def.name].unit == k
  }

  /** Every capture holds the meaning the scope gives its name. */
  ghost predicate CapturesMean(st: RecScope)
  {
    forall k, c :: 0 <= k < |st.units| && c in st.units[k].nonlocals ==> c.expr == ScopeExpr(st, c.name)
  }

  /** Unit `k` has been started and its right-hand side analysed. */
  ghost predicate Finished(st: RecScope, k: nat)
  {
    k < |st.units| && !st.units[k].state.NotAnalyzed? && k !in st.analysisStack
  }

  /** Unit `k` keeps the meaning of every name of the scope its right-hand
      side uses: a data unit in its body, a function unit as a capture. */
  ghost predicate Prepared(st: RecScope, k: nat)
    requires k < |st.units|
  {
    forall n :: n in st.units[k].def.refs && n in st.dict ==>
      if st.units[k].def.IsData() then ScopeExpr(st, n) in st.units[k].body
      else Capture(n, ScopeExpr(st, n)) in st.units[k].nonlocals
  }

  ghost predicate AllPrepared(st: RecScope)
  {
    forall k :: Finished(st, k) ==> Prepared(st, k)
  }

  /** Action `a` accounts for every name of the scope unit `k` uses: it
      reads the slot of that name or, for a function, writes it. */
  ghost predicate Covers(st: RecScope, k: nat, a: Action)
    requires k < |st.units|
  {
    forall n :: n in st.units[k].def.refs && n in st.dict ==>
      || st.dict[n].slot in Reads(a)
      || (!st.units[k].def.IsData() && st.dict[n].slot in Writes(a))
  }

  /** The action that initialises a unit accounts for the names it uses. */
  ghost predicate ActionsCover(st: RecScope)
  {
    forall p, k :: 0 <= p < |st.actions| && 0 <= k < |st.units| && st.units[k].slot in Writes(st.actions[p]) ==>
      Covers(st, k, st.actions[p])
  }

  ghost predicate RefInv(st: RecScope)
  {
    NamesOk(st) && CapturesMean(st) && AllPrepared(st) && ActionsCover(st)
  }

  /** Captures are only ever added. */
  ghost predicate CapturesGrow(st: RecScope, st': RecScope)
  {
    && |st'.units| == |st.units|
    && forall k, c :: 0 <= k < |st.units| && c in st.units[k].nonlocals ==> c in st'.units[k].nonlocals
  }

  lemma GrowTrans(a: RecScope, b: RecScope, c: RecScope)
    requires CapturesGrow(a, b) && CapturesGrow(b, c)
    ensures CapturesGrow(a, c)
  {
  }

  /** `st'` differs from `st` only in Tarjan's bookkeeping. */
  ghost predicate SameContent(st: RecScope, st': RecScope)
  {
    && st'.target == st.target && st'.constants == st.constants && st'.dict == st.dict
    && st'.analysisStack == st.analysisStack && st'.actions == st.actions
    && |st'.units| == |st.units|
    && forall k :: 0 <= k < |st.units| ==>
         && st'.units[k].def == st.units[k].def && st'.units[k].slot == st.units[k].slot
         && st'.units[k].nonlocals == st.units[k].nonlocals && st'.units[k].body == st.units[k].body
         && st'.units[k].state.NotAnalyzed? == st.units[k].state.NotAnalyzed?
  }

  lemma SameRef(st: RecScope, st': RecScope)
    requires RefInv(st) && SameContent(st, st')
    ensures RefInv(st') && CapturesGrow(st, st')
  {
    forall k | Finished(st', k)
      ensures Prepared(st', k)
    {
      assert Finished(st, k) && Prepared(st, k);
    }
    forall p, k | 0 <= p < |st'.actions| && 0 <= k < |st'.units| && st'.units[k].slot in Writes(st'.actions[p])
      ensures Covers(st', k, st'.actions[p])
    {
      assert Covers(st, k, st.actions[p]);
    }
  }

  // ---------------------------------------------------------------------
  // The primitive steps

  lemma DiscoverRef(st: RecScope, i: nat)
    requires RefInv(st) && i < |st.units| && st.units[i].state.NotAnalyzed?
    ensures RefInv(Discover(st, i)) && CapturesGrow(st, Discover(st, i))
  {
    var st1 := Discover(st, i);
    forall k | Finished(st1, k)
      ensures Prepared(st1, k)
    {
      assert k != i && Finished(st, k) && Prepared(st, k);
    }
    forall p, k | 0 <= p < |st1.actions| && 0 <= k < |st1.units| && st1.units[k].slot in Writes(st1.actions[p])
      ensures Covers(st1, k, st1.actions[p])
    {
      assert Covers(st, k, st.actions[p]);
    }
  }

  lemma LowerRef(st: RecScope, low: nat)
    requires RefInv(st) && WellFormed(st) && |st.analysisStack| > 0
    ensures RefInv(LowerParent(st, low)) && CapturesGrow(st, LowerParent(st, low))
  {
    SameRef(st, LowerParent(st, low));
  }

  lemma PropagateRef(st: RecScope, i: nat, id: Name)
    requires RefInv(st) && WellFormed(st) && i < |st.units| && PropagateLowlink(st, i, id).Ok?
    ensures RefInv(PropagateLowlink(st, i, id).value) && CapturesGrow(st, PropagateLowlink(st, i, id).value)
  {
    SameRef(st, PropagateLowlink(st, i, id).value);
  }

  /** Recording a capture with the meaning the scope gives the name keeps
      every capture there was. */
  lemma RecordRef(st: RecScope, o: nat, n: Name, e: Expr)
    requires RefInv(st) && o < |st.units| && CapturesDistinct(st.units[o].nonlocals) && e == ScopeExpr(st, n)
    ensures RefInv(Recorded(st, o, n, e)) && CapturesGrow(st, Recorded(st, o, n, e))
  {
    var st' := Recorded(st, o, n, e);
    forall k, c | 0 <= k < |st.units| && c in st.units[k].nonlocals
      ensures c in st'.units[k].nonlocals
    {
      if k == o && c.name == n {
        assert c == Capture(n, e);
      }
    }
    forall k | Finished(st', k)
      ensures Prepared(st', k)
    {
      assert Finished(st, k) && Prepared(st, k);
    }
    forall p, k | 0 <= p < |st'.actions| && 0 <= k < |st'.units| && st'.units[k].slot in Writes(st'.actions[p])
      ensures Covers(st', k, st'.actions[p])
    {
      assert Covers(st, k, st.actions[p]);
    }
  }

  /** Leaving the analysis stack: the unit is finished, and prepared. */
  lemma FinishRef(mid: RecScope, i: nat, body: seq<Expr>)
    requires RefInv(mid) && IsTop(mid, i) && i < |mid.units|
    requires Prepared(FinishAnalysis(mid, i, body), i)
    ensures RefInv(FinishAnalysis(mid, i, body)) && CapturesGrow(mid, FinishAnalysis(mid, i, body))
  {
    var st2 := FinishAnalysis(mid, i, body);
    assert mid.analysisStack == st2.analysisStack + [i];
    forall k | Finished(st2, k)
      ensures Prepared(st2, k)
    {
      if k != i {
        assert Finished(mid, k) && Prepared(mid, k);
      }
    }
    forall p, k | 0 <= p < |st2.actions| && 0 <= k < |st2.units| && st2.units[k].slot in Writes(st2.actions[p])
      ensures Covers(st2, k, st2.actions[p])
    {
      assert Covers(mid, k, mid.actions[p]);
    }
  }

  /** Emitting a component with an action that accounts for the names
      every member uses. */
  lemma EmitRef(st: RecScope, s0: nat, a: Action, st': RecScope)
    requires RefInv(st) && RegOk(st) && StackOk(st) && Emitted(st, s0, a, st')
    requires InUnits(st.units, st.sccStack[s0..]) && Writes(a) == GroupSlots(st.units, st.sccStack[s0..])
    requires forall j :: s0 <= j < |st.sccStack| ==> Covers(st, st.sccStack[j], a)
    ensures RefInv(st') && CapturesGrow(st, st')
  {
    EmitPrepared(st, s0, a, st');
    forall p, k | 0 <= p < |st'.actions| && 0 <= k < |st'.units| && st'.units[k].slot in Writes(st'.actions[p])
      ensures Covers(st', k, st'.actions[p])
    {
      if p < |st.actions| {
        EmitOldCover(st, s0, a, st', p, k);
      } else {
        EmitNewCover(st, s0, a, st', k);
      }
    }
  }

  /** Emitting changes only states, from in progress to analysed. */
  lemma EmitPrepared(st: RecScope, s0: nat, a: Action, st': RecScope)
    requires NamesOk(st) && CapturesMean(st) && AllPrepared(st) && StackOk(st) && Emitted(st, s0, a, st')
    ensures NamesOk(st') && CapturesMean(st') && AllPrepared(st') && CapturesGrow(st, st')
  {
    forall k | Finished(st', k)
      ensures Prepared(st', k)
    {
      assert Finished(st, k);
      PreparedSame(st, st', k);
    }
  }

  lemma EmitOldCover(st: RecScope, s0: nat, a: Action, st': RecScope, p: nat, k: nat)
    requires ActionsCover(st) && Emitted(st, s0, a, st')
    requires p < |st.actions| && k < |st.units| && st'.units[k].slot in Writes(st'.actions[p])
    ensures Covers(st', k, st'.actions[p])
  {
    assert st'.actions[p] == st.actions[p];
    assert Covers(st, k, st.actions[p]);
    CoversSame(st, st', k, st.actions[p]);
  }

  lemma EmitNewCover(st: RecScope, s0: nat, a: Action, st': RecScope, k: nat)
    requires RegOk(st) && Emitted(st, s0, a, st')
    requires InUnits(st.units, st.sccStack[s0..]) && Writes(a) == GroupSlots(st.units, st.sccStack[s0..])
    requires forall j :: s0 <= j < |st.sccStack| ==> Covers(st, st.sccStack[j], a)
    requires k < |st.units| && st'.units[k].slot in Writes(a)
    ensures Covers(st', k, a)
  {
    var group := st.sccStack[s0..];
    assert st'.units[k].slot == st.units[k].slot;
    var x := GroupMember(st, group, k);
    assert st.sccStack[s0 + x] == k;
    CoversSame(st, st', k, a);
  }

  /** Slots are distinct, so a unit whose slot the group writes is a member. */
  lemma GroupMember(st: RecScope, group: seq<nat>, k: nat) returns (x: nat)
    requires RegOk(st) && InUnits(st.units, group)
    requires k < |st.units| && st.units[k].slot in GroupSlots(st.units, group)
    ensures x < |group| && group[x] == k
  {
    var slots := GroupSlots(st.units, group);
    var y :| 0 <= y < |slots| && slots[y] == st.units[k].slot;
    x := y;
  }

  /** What a unit accounts for depends only on its definition and the
      bindings. */
  lemma CoversSame(st: RecScope, st': RecScope, k: nat, a: Action)
    requires k < |st.units| && k < |st'.units| && st'.dict == st.dict && st'.units[k].def == st.units[k].def
    ensures Covers(st', k, a) == Covers(st, k, a)
  {
  }

  /** Whether a unit is prepared depends only on its definition, body and
      captures, and on the meanings of names. */
  lemma PreparedSame(st: RecScope, st': RecScope, k: nat)
    requires k < |st.units| && k < |st'.units|
    requires st'.dict == st.dict && st'.target == st.target && st'.constants == st.constants
    requires st'.units[k].def == st.units[k].def && st'.units[k].body == st.units[k].body
    requires st'.units[k].nonlocals == st.units[k].nonlocals
    ensures Prepared(st', k) == Prepared(st, k)
  {
    ScopeExprSame(st, st');
  }

  lemma ScopeExprSame(st: RecScope, st': RecScope)
    requires st'.dict == st.dict && st'.target == st.target && st'.constants == st.constants
    ensures forall n :: ScopeExpr(st', n) == ScopeExpr(st, n)
  {
  }

  /** The data setter of a finished data unit reads what the unit uses. */
  lemma DataCovers(st: RecScope, i: nat, a: Action)
    requires AllPrepared(st) && Finished(st, i) && st.units[i].def.IsData()
    requires Reads(a) == ExprReads(st.units[i].body)
    ensures Covers(st, i, a)
  {
    assert Prepared(st, i);
  }

  /** The function setter of a group of finished units writes the members
      and reads every other name of the scope they use. */
  lemma GroupCovers(st: RecScope, s0: nat, a: Action)
    requires RegOk(st) && NamesOk(st) && CapturesMean(st) && AllPrepared(st)
    requires StackOk(st) && AnalysisBelow(st, s0)
    requires InUnits(st.units, st.sccStack[s0..]) && MakeFunctionSetter(st.target, st.units, st.sccStack[s0..]) == Ok(a)
    ensures forall j :: s0 <= j < |st.sccStack| ==> Covers(st, st.sccStack[j], a)
  {
    var group := st.sccStack[s0..];
    SetterWrites(st.target, st.units, group);
    SetterAccountsFor(st, group, a);
    StackCovers(st, s0, a);
  }

  /** `a` is the setter made for `group`, which writes the group's slots. */
  ghost predicate GroupSetter(st: RecScope, group: seq<nat>, a: Action)
  {
    && RegOk(st) && NamesOk(st) && CapturesMean(st)
    && InUnits(st.units, group) && MakeFunctionSetter(st.target, st.units, group) == Ok(a)
    && Writes(a) == GroupSlots(st.units, group)
  }

  /** What the setter of `group` does for its members: none is a data
      definition, and the slot of every scope name a member captures is
      read or written by `a`. */
  ghost predicate SetterAccounts(st: RecScope, group: seq<nat>, a: Action)
  {
    && InUnits(st.units, group)
    && (forall x :: 0 <= x < |group| ==> !st.units[group[x]].def.IsData())
    && (forall x, n :: 0 <= x < |group| && n in st.dict && Capture(n, ScopeExpr(st, n)) in st.units[group[x]].nonlocals ==>
          st.dict[n].slot in Reads(a) || st.dict[n].slot in Writes(a))
  }

  lemma SetterAccountsFor(st: RecScope, group: seq<nat>, a: Action)
    requires GroupSetter(st, group, a)
    ensures SetterAccounts(st, group, a)
  {
    forall x, n | 0 <= x < |group| && n in st.dict && Capture(n, ScopeExpr(st, n)) in st.units[group[x]].nonlocals
      ensures st.dict[n].slot in Reads(a) || st.dict[n].slot in Writes(a)
    {
      MemberCovers(st, group, a, x, n);
    }
  }

  /** Every member of the component on top of the stack is covered. */
  lemma StackCovers(st: RecScope, s0: nat, a: Action)
    requires StackOk(st) && AnalysisBelow(st, s0) && s0 <= |st.sccStack| && AllPrepared(st)
    requires SetterAccounts(st, st.sccStack[s0..], a)
    ensures forall j :: s0 <= j < |st.sccStack| ==> Covers(st, st.sccStack[j], a)
  {
    forall j | s0 <= j < |st.sccStack|
      ensures Covers(st, st.sccStack[j], a)
    {
      GroupFinished(st, s0, j);
      MemberCoversAt(st, s0, a, j);
    }
  }

  /** The member at stack position j, once finished, is covered. */
  lemma MemberCoversAt(st: RecScope, s0: nat, a: Action, j: nat)
    requires s0 <= j < |st.sccStack| && Finished(st, st.sccStack[j]) && AllPrepared(st)
    requires SetterAccounts(st, st.sccStack[s0..], a)
    ensures Covers(st, st.sccStack[j], a)
  {
    var group := st.sccStack[s0..];
    var u := st.sccStack[j];
    assert group[j - s0] == u;
    assert Prepared(st, u);
    assert !st.units[u].def.IsData();
    forall n | n in st.units[u].def.refs && n in st.dict
      ensures st.dict[n].slot in Reads(a) || st.dict[n].slot in Writes(a)
    {
      assert Capture(n, ScopeExpr(st, n)) in st.units[group[j - s0]].nonlocals;
    }
  }

  /** A unit of the component being emitted is no longer being analysed. */
  lemma GroupFinished(st: RecScope, s0: nat, j: nat)
    requires StackOk(st) && AnalysisBelow(st, s0) && s0 <= j < |st.sccStack|
    ensures Finished(st, st.sccStack[j])
  {
    EmitSplit(st, s0);
    assert st.sccStack[j] in st.sccStack[s0..];
  }

  /** One name a member uses: a member's name is written, any other is
      read through the capture that numbers it. */
  lemma MemberCovers(st: RecScope, group: seq<nat>, a: Action, x: nat, n: Name)
    requires GroupSetter(st, group, a)
    requires x < |group| && n in st.dict && Capture(n, ScopeExpr(st, n)) in st.units[group[x]].nonlocals
    ensures st.dict[n].slot in Reads(a) || st.dict[n].slot in Writes(a)
  {
    var y :| 0 <= y < |a.nonlocalNames| && a.nonlocalNames[y] == n;
    if y < |group| {
      assert st.units[group[y]].def.name == n;
      assert Writes(a)[y] == st.dict[n].slot;
    } else {
      assert Capture(n, a.nonlocalExprs[y]) in GroupCaptures(st.units, group);
      var z :| 0 <= z < |group| && Capture(n, a.nonlocalExprs[y]) in st.units[group[z]].nonlocals;
      assert a.nonlocalExprs[y] == ScopeExpr(st, n);
      assert a.nonlocalExprs[y] in a.nonlocalExprs;
    }
  }

  // ---------------------------------------------------------------------
  // The first visit

  /** The unit just analysed is prepared: a data unit's body holds the
      meaning of each name, a function unit captured each one. */
  lemma VisitPrepared(st1: RecScope, i: nat, mid: RecScope, body: seq<Expr>, env: Env)
    requires i < |mid.units| && |mid.analysisStack| > 0
    requires mid.dict == st1.dict && mid.target == st1.target && mid.constants == st1.constants
    requires env == if mid.units[i].def.IsData() then ScopeEnv else CaptureEnv(i)
    requires var refs := mid.units[i].def.refs;
      && |body| == |refs|
      && (forall t :: 0 <= t < |refs| ==> body[t] == EnvExpr(st1, refs[t], env))
      && (env.CaptureEnv? ==> forall t :: 0 <= t < |refs| && !ScopeExpr(st1, refs[t]).Constant? ==>
            Capture(refs[t], ScopeExpr(st1, refs[t])) in mid.units[i].nonlocals)
    ensures Prepared(FinishAnalysis(mid, i, body), i)
  {
    var refs := mid.units[i].def.refs;
    forall n | n in refs && n in mid.dict
      ensures ScopeExpr(mid, n) == ScopeExpr(st1, n)
    {
    }
    forall n | n in refs && n in mid.dict
      ensures if mid.units[i].def.IsData() then ScopeExpr(mid, n) in body
              else Capture(n, ScopeExpr(mid, n)) in mid.units[i].nonlocals
    {
      var t :| 0 <= t < |refs| && refs[t] == n;
      assert body[t] == EnvExpr(st1, n, env);
    }
  }

  lemma {:induction false} FirstVisitRef(st: RecScope, i: nat, id: Name, mid: RecScope, body: seq<Expr>, st4: RecScope)
    requires Inv(st) && i < |st.units| && st.units[i].state.NotAnalyzed?
    requires Inv(mid) && Step(Discover(st, i), mid)
    requires forall e :: e in body ==> ResultOk(mid, e)
    requires WellFormed(FinishAnalysis(mid, i, body))
    requires Complete(FinishAnalysis(mid, i, body), i, id) == Ok(st4)
    requires RefInv(mid) && Prepared(FinishAnalysis(mid, i, body), i)
    ensures RefInv(st4) && CapturesGrow(mid, st4)
  {
    var st2 := FinishAnalysis(mid, i, body);
    VisitingStart(st, i, mid, body);
    assert IsTop(mid, i) by {
      assert mid.analysisStack == Discover(st, i).analysisStack;
    }
    FinishRef(mid, i, body);
    CompleteRef(st, i, id, st2, st4);
    GrowTrans(mid, st2, st4);
  }

  /** Completing a visit, as a component root or not, keeps the meanings. */
  lemma CompleteRef(st: RecScope, i: nat, id: Name, st2: RecScope, st4: RecScope)
    requires Inv(st) && Core(st2) && Visiting(st, i, st2) && RefInv(st2)
    requires Complete(st2, i, id) == Ok(st4)
    ensures RefInv(st4) && CapturesGrow(st2, st4)
  {
    if st2.units[i].lowlink == st2.units[i].ord {
      RootRef(st, i, id, st2, st4);
    } else {
      NonRootRef(st, i, id, st2, st4);
    }
  }

  lemma NonRootRef(st: RecScope, i: nat, id: Name, st2: RecScope, st4: RecScope)
    requires Inv(st) && Core(st2) && Visiting(st, i, st2) && RefInv(st2)
    requires st2.units[i].lowlink != st2.units[i].ord
    requires Complete(st2, i, id) == Ok(st4)
    ensures RefInv(st4) && CapturesGrow(st2, st4)
  {
    NonRootFacts(st, i, st2);
    var st3 := PropagateLowlink(st2, i, id).value;
    assert st3.units[i] == st2.units[i];
    PropagateRef(st2, i, id);
  }

  lemma RootRef(st: RecScope, i: nat, id: Name, st2: RecScope, st4: RecScope)
    requires Inv(st) && Core(st2) && Visiting(st, i, st2) && RefInv(st2)
    requires st2.units[i].lowlink == st2.units[i].ord
    requires Complete(st2, i, id) == Ok(st4)
    ensures RefInv(st4) && CapturesGrow(st2, st4)
  {
    RootKeepsParent(st, i, id, st2);
    assert EmitComponent(st2, i) == Ok(st4);
    if st2.units[i].def.IsData() {
      DataRootRef(st, i, st2);
    } else {
      GroupRootRef(st, i, st2, st4);
    }
  }

  lemma DataRootRef(st: RecScope, i: nat, st2: RecScope)
    requires Inv(st) && Core(st2) && Visiting(st, i, st2) && RefInv(st2)
    requires st2.units[i].lowlink == st2.units[i].ord && st2.units[i].def.IsData()
    ensures RefInv(EmitData(st2, i)) && CapturesGrow(st2, EmitData(st2, i))
  {
    var s0 := |st.sccStack|;
    DataRootAlone(st, i, st2);
    var a := DataEmitted(st, i, st2);
    EmitSplit(st2, s0);
    assert i !in st2.analysisStack;
    DataCovers(st2, i, a);
    EmitRef(st2, s0, a, EmitData(st2, i));
  }

  lemma GroupRootRef(st: RecScope, i: nat, st2: RecScope, st4: RecScope)
    requires Inv(st) && Core(st2) && Visiting(st, i, st2) && RefInv(st2)
    requires EmitGroup(st2, i) == Ok(st4)
    ensures RefInv(st4) && CapturesGrow(st2, st4)
  {
    var s0 := |st.sccStack|;
    RootIndex(st, i, st2);
    var a := GroupEmittedShape(st2, s0, i, st4);
    GroupEmittedFrame(st, i, st2, a, st4);
    GroupCovers(st2, s0, a);
    EmitRef(st2, s0, a, st4);
  }

  // ---------------------------------------------------------------------
  // analyze_unit and the lookups

  lemma {:induction false} AnalyzeUnitRef(st: RecScope, i: nat, id: Name)
    requires Inv(st) && RefInv(st) && i < |st.units| && AnalyzeUnit(st, i, id).Ok?
    ensures RefInv(AnalyzeUnit(st, i, id).value) && CapturesGrow(st, AnalyzeUnit(st, i, id).value)
    decreases CountFresh(st.units), 0, 2
  {
    var u := st.units[i];
    match u.state
    case Analyzed =>
    case InProgress =>
      if |st.analysisStack| > 0 {
        LowerRef(st, u.ord);
      }
    case NotAnalyzed =>
      FreshUnitRef(st, i, id);
  }

  /** The first visit of a unit: its references are resolved, it is
      prepared, and its component, if it closes, is emitted covered. */
  lemma {:induction false} FreshUnitRef(st: RecScope, i: nat, id: Name)
    requires Inv(st) && RefInv(st) && i < |st.units| && st.units[i].state.NotAnalyzed?
    requires AnalyzeUnit(st, i, id).Ok?
    ensures RefInv(AnalyzeUnit(st, i, id).value) && CapturesGrow(st, AnalyzeUnit(st, i, id).value)
    decreases CountFresh(st.units), 0, 1
  {
    var mid, body, st4 := FirstVisitParts(st, i, id);
    VisitResolvedRef(st, i, mid, body);
    FirstVisitRef(st, i, id, mid, body, st4);
    GrowTrans(st, mid, st4);
  }

  /** The right-hand side of a unit on its first visit, resolved: the
      scope keeps the invariant and the unit is prepared. */
  lemma {:induction false} VisitResolvedRef(st: RecScope, i: nat, mid: RecScope, body: seq<Expr>)
    requires Inv(st) && RefInv(st) && i < |st.units| && st.units[i].state.NotAnalyzed?
    requires var env := if st.units[i].def.IsData() then ScopeEnv else CaptureEnv(i);
      Resolve(Discover(st, i), st.units[i].def.refs, env) == Ok((mid, body))
    requires |mid.analysisStack| > 0
    ensures Resolved(Discover(st, i), (mid, body))
    ensures RefInv(mid) && CapturesGrow(st, mid) && Prepared(FinishAnalysis(mid, i, body), i)
    decreases CountFresh(st.units), 0, 0
  {
    var u := st.units[i];
    var st1 := Discover(st, i);
    CountFreshLt(st.units, st1.units, i);
    var env := if u.def.IsData() then ScopeEnv else CaptureEnv(i);
    DiscoverEnv(st, i, env);
    DiscoverRef(st, i);
    ResolveSound(st1, u.def.refs, env);
    ResolveRef(st1, u.def.refs, env, mid);
    VisitPrepared(st1, i, mid, body, env);
    GrowTrans(st, st1, mid);
  }

  lemma {:induction false} SingleLookupRef(st: RecScope, n: Name)
    requires Inv(st) && RefInv(st) && SingleLookup(st, n).Ok?
    ensures RefInv(SingleLookup(st, n).value.0) && CapturesGrow(st, SingleLookup(st, n).value.0)
    decreases CountFresh(st.units), 1, 0
  {
    if n in st.dict {
      AnalyzeUnitRef(st, st.dict[n].unit, n);
    }
  }

  lemma {:induction false} LookupRef(st: RecScope, n: Name)
    requires Inv(st) && RefInv(st) && Lookup(st, n).Ok?
    ensures RefInv(Lookup(st, n).value.0) && CapturesGrow(st, Lookup(st, n).value.0)
    decreases CountFresh(st.units), 2, 0
  {
    SingleLookupRef(st, n);
  }

  lemma {:induction false} CaptureLookupRef(st: RecScope, owner: nat, n: Name)
    requires Inv(st) && RefInv(st) && owner < |st.units| && CaptureLookup(st, owner, n).Ok?
    ensures RefInv(CaptureLookup(st, owner, n).value.0) && CapturesGrow(st, CaptureLookup(st, owner, n).value.0)
    decreases CountFresh(st.units), 3, 0
  {
    LookupRef(st, n);
    var p := Lookup(st, n).value;
    if !p.1.Constant? {
      CaptureRecords(st, owner, n);
      RecordRef(p.0, owner, n, p.1);
      GrowTrans(st, p.0, Recorded(p.0, owner, n, p.1));
    }
  }

  lemma {:induction false} EnvLookupRef(st: RecScope, n: Name, env: Env)
    requires Inv(st) && RefInv(st) && (env.CaptureEnv? ==> env.owner < |st.units|) && EnvLookup(st, n, env).Ok?
    ensures RefInv(EnvLookup(st, n, env).value.0) && CapturesGrow(st, EnvLookup(st, n, env).value.0)
    decreases CountFresh(st.units), 4, 0
  {
    match env
    case ScopeEnv => LookupRef(st, n);
    case CaptureEnv(owner) => CaptureLookupRef(st, owner, n);
  }

  /** Analysing a right-hand side in the capture environment of a function
      records, for every name whose meaning is not a constant, the meaning
      the scope gives it. */
  lemma {:induction false} ResolveRef(st: RecScope, refs: seq<Name>, env: Env, fin: RecScope)
    requires Inv(st) && EnvOk(st, env) && RefInv(st)
    requires Resolve(st, refs, env).Ok? && Resolve(st, refs, env).value.0 == fin
    ensures RefInv(fin) && CapturesGrow(st, fin)
    ensures env.CaptureEnv? ==> forall t :: 0 <= t < |refs| && !ScopeExpr(st, refs[t]).Constant? ==>
      Capture(refs[t], ScopeExpr(st, refs[t])) in fin.units[env.owner].nonlocals
    decreases CountFresh(st.units), 5, |refs|
  {
    if |refs| > 0 {
      EnvLookupSound(st, refs[0], env);
      var p := EnvLookup(st, refs[0], env).value;
      EvolvesCount(st, p.0);
      EnvOkStep(st, p, env);
      EnvLookupRef(st, refs[0], env);
      ResolveUnfold(st, refs, env);
      ResolveRef(p.0, refs[1..], env, fin);
      GrowTrans(st, p.0, fin);
      if env.CaptureEnv? {
        ResolveCaptures(st, refs, env.owner, p.0, fin);
      }
    } else {
      assert fin == st;
    }
  }

  /** The captures of the first name and of the rest, joined. */
  lemma ResolveCaptures(st: RecScope, refs: seq<Name>, owner: nat, mid: RecScope, fin: RecScope)
    requires WellFormed(st) && owner < |st.units| && |refs| > 0
    requires CaptureLookup(st, owner, refs[0]).Ok? && CaptureLookup(st, owner, refs[0]).value.0 == mid
    requires mid.dict == st.dict && mid.target == st.target && mid.constants == st.constants
    requires CapturesGrow(mid, fin)
    requires forall t :: 0 <= t < |refs[1..]| && !ScopeExpr(mid, refs[1..][t]).Constant? ==>
      Capture(refs[1..][t], ScopeExpr(mid, refs[1..][t])) in fin.units[owner].nonlocals
    ensures forall t :: 0 <= t < |refs| && !ScopeExpr(st, refs[t]).Constant? ==>
      Capture(refs[t], ScopeExpr(st, refs[t])) in fin.units[owner].nonlocals
  {
    forall t | 0 <= t < |refs| && !ScopeExpr(st, refs[t]).Constant?
      ensures Capture(refs[t], ScopeExpr(st, refs[t])) in fin.units[owner].nonlocals
    {
      assert ScopeExpr(mid, refs[t]) == ScopeExpr(st, refs[t]);
      if t > 0 {
        assert refs[1..][t - 1] == refs[t];
      }
    }
  }

  // ---------------------------------------------------------------------
  // Recursive_Scope::analyze

  lemma RegisteredRef(st: RecScope, base: nat)
    requires Registered(st, base)
    ensures RefInv(st)
  {
  }

  lemma StatementRef(q: RecScope, body: seq<Expr>)
    requires RefInv(q)
    ensures RefInv(q.(actions := q.actions + [Statement(body)]))
  {
    var q' := q.(actions := q.actions + [Statement(body)]);
    forall k | Finished(q', k)
      ensures Prepared(q', k)
    {
      assert Finished(q, k) && Prepared(q, k);
    }
    forall p, k | 0 <= p < |q'.actions| && 0 <= k < |q'.units| && q'.units[k].slot in Writes(q'.actions[p])
      ensures Covers(q', k, q'.actions[p])
    {
      assert p < |q.actions| && Covers(q, k, q.actions[p]);
    }
  }

  /** The statement loop from statement k on ends in `fin`, starting from
      an idle scope that keeps the meanings of names. */
  ghost predicate ActionsRun(st: RecScope, k: nat, fin: RecScope)
  {
    Idle(st) && RefInv(st) && k <= |st.actionPhrases| && AnalyzeActions(st, k) == Ok(fin)
  }

  lemma {:induction false} AnalyzeActionsRef(st: RecScope, k: nat, fin: RecScope)
    requires ActionsRun(st, k, fin)
    ensures RefInv(fin)
    decreases |st.actionPhrases| - k, 1
  {
    if k < |st.actionPhrases| {
      ActionStepRef(st, k, fin);
    }
  }

  /** One statement: resolving it and appending it keeps the meanings, and
      the rest of the loop runs from there. */
  lemma {:induction false} ActionStepRef(st: RecScope, k: nat, fin: RecScope)
    requires ActionsRun(st, k, fin) && k < |st.actionPhrases|
    ensures RefInv(fin)
    decreases |st.actionPhrases| - k, 0
  {
    var mid, body, st1 := ActionStep(st, k);
    ResolveRef(st, st.actionPhrases[k], ScopeEnv, mid);
    StatementRef(mid, body);
    AnalyzeActionsRef(st1, k + 1, fin);
  }

  /** Along a run of the outer loop every state keeps the meanings of names. */
  lemma {:induction false} RunsRef(st: RecScope, k: nat, fin: RecScope)
    requires Runs(st, k, fin) && RefInv(st)
    ensures RefInv(fin)
    decreases |st.units| - k
  {
    if k < |st.units| {
      var st1 := StepFrom(st, k).value;
      StepRef(st, k, st1);
      RunsRef(st1, k + 1, fin);
    }
  }

  /** One step of the outer loop: unit j is analysed unless it already is. */
  lemma StepRef(s: RecScope, j: nat, s': RecScope)
    requires StepFrom(s, j) == Some(s') && RefInv(s)
    ensures RefInv(s')
  {
    StepFromFacts(s, j, s');
    if s.units[j].state.NotAnalyzed? {
      AnalyzeUnitRef(s, j, s.units[j].def.name);
    }
  }

  lemma PhasesRef(st0: RecScope, base: nat) returns (st2: RecScope)
    requires Registered(st0, base) && WellFormed(st0) && AnalyzeActions(st0, 0).Ok?
    requires AnalyzeRemaining(AnalyzeActions(st0, 0).value, 0).Ok?
    ensures st2 == AnalyzeRemaining(AnalyzeActions(st0, 0).value, 0).value
    ensures ActionsCover(st2) && Evolves(st0, st2)
  {
    var st1 := ActionsPhaseRef(st0, base);
    st2 := RemainingPhaseRef(st1);
    EvolvesTrans(st0, st1, st2);
  }

  lemma ActionsPhaseRef(st0: RecScope, base: nat) returns (st1: RecScope)
    requires Registered(st0, base) && AnalyzeActions(st0, 0).Ok?
    ensures st1 == AnalyzeActions(st0, 0).value
    ensures Idle(st1) && RefInv(st1)
  {
    RegisteredInv(st0, base);
    RegisteredRef(st0, base);
    AnalyzeActionsSound(st0, 0);
    st1 := AnalyzeActions(st0, 0).value;
    AnalyzeActionsRef(st0, 0, st1);
  }

  lemma RemainingPhaseRef(st1: RecScope) returns (st2: RecScope)
    requires Idle(st1) && RefInv(st1) && AnalyzeRemaining(st1, 0).Ok?
    ensures st2 == AnalyzeRemaining(st1, 0).value
    ensures ActionsCover(st2)
  {
    st2 := AnalyzeRemaining(st1, 0).value;
    RemainingRuns(st1, 0);
    RunsRef(st1, 0, st2);
  }

  /** In `actions`, the action that initialises definition `j` (slot
      base + j) accounts for every definition its right-hand side names. */
  ghost predicate FollowsReferences(actions: seq<Action>, defs: seq<Definition>, base: nat)
  {
    forall p, j {:trigger Follows(actions[p], defs, base, j)} ::
      0 <= p < |actions| && 0 <= j < |defs| && base + j in Writes(actions[p]) ==>
      Follows(actions[p], defs, base, j)
  }

  /** Action `a` reads the slot of every definition `m` that definition `j`
      names, or, when `j` is a function, initialises `m` itself. */
  ghost predicate Follows(a: Action, defs: seq<Definition>, base: nat, j: nat)
    requires j < |defs|
  {
    forall m :: 0 <= m < |defs| && defs[m].name in defs[j].refs ==>
      base + m in Reads(a) || (!defs[j].IsData() && base + m in Writes(a))
  }

  /** Recursive_Scope::analyze emits, for each definition, an action that
      depends on every definition of the compound its right-hand side names. */
  lemma AnalyzeFollowsReferences(target: Target, constants: set<Name>, firstSlot: nat, entries: seq<Entry>)
    requires Analyze(target, constants, firstSlot, entries).Ok?
    ensures FollowsReferences(Analyze(target, constants, firstSlot, entries).value.actions,
                              Definitions(entries), SlotBase(target, firstSlot))
  {
    var base := SlotBase(target, firstSlot);
    var st0 := RegisterPhase(target, constants, firstSlot, entries);
    RegisteredWellFormed(st0, base);
    var st2 := PhasesRef(st0, base);
    UnitsAccounted(st0, st2, base, Definitions(entries));
    assert Analyze(target, constants, firstSlot, entries).value.actions == st2.actions;
  }

  /** After the analysis, unit j is still the j-th definition, at slot
      base + j, and its name is bound to that slot. */
  ghost predicate LaidOut(st: RecScope, defs: seq<Definition>, base: nat)
  {
    && |st.units| == |defs|
    && forall j :: 0 <= j < |defs| ==>
         && st.units[j].def == defs[j] && st.units[j].slot == base + j
         && defs[j].name in st.dict && st.dict[defs[j].name].slot == base + j
  }

  lemma EvolvedLayout(st0: RecScope, st2: RecScope, base: nat, defs: seq<Definition>)
    requires Registered(st0, base) && UnitDefs(st0.units) == defs && Evolves(st0, st2)
    ensures LaidOut(st2, defs, base)
  {
    forall j | 0 <= j < |defs|
      ensures && st2.units[j].def == defs[j] && st2.units[j].slot == base + j
              && defs[j].name in st2.dict && st2.dict[defs[j].name].slot == base + j
    {
      assert st0.units[j].def == defs[j];
    }
  }

  lemma UnitsAccounted(st0: RecScope, st2: RecScope, base: nat, defs: seq<Definition>)
    requires Registered(st0, base) && UnitDefs(st0.units) == defs && ActionsCover(st2) && Evolves(st0, st2)
    ensures FollowsReferences(st2.actions, defs, base)
  {
    EvolvedLayout(st0, st2, base, defs);
    forall p, j | 0 <= p < |st2.actions| && 0 <= j < |defs| && base + j in Writes(st2.actions[p])
      ensures Follows(st2.actions[p], defs, base, j)
    {
      forall m | 0 <= m < |defs| && defs[m].name in defs[j].refs
        ensures || base + m in Reads(st2.actions[p])
                || (!defs[j].IsData() && base + m in Writes(st2.actions[p]))
      {
        UnitAccounted(st2, base, defs, p, j, m);
      }
    }
  }

  /** The action that writes unit j's slot reads or writes every slot j names. */
  lemma UnitAccounted(st2: RecScope, base: nat, defs: seq<Definition>, p: nat, j: nat, m: nat)
    requires LaidOut(st2, defs, base) && ActionsCover(st2)
    requires p < |st2.actions| && j < |defs| && m < |defs|
    requires base + j in Writes(st2.actions[p]) && defs[m].name in defs[j].refs
    ensures || base + m in Reads(st2.actions[p])
            || (!defs[j].IsData() && base + m in Writes(st2.actions[p]))
  {
    CoverAt(st2, p, j);
    CoveredName(st2, j, st2.actions[p], defs[m].name);
  }

  lemma CoverAt(st: RecScope, p: nat, k: nat)
    requires ActionsCover(st) && p < |st.actions| && k < |st.units| && st.units[k].slot in Writes(st.actions[p])
    ensures Covers(st, k, st.actions[p])
  {
  }

  lemma CoveredName(st: RecScope, k: nat, a: Action, n: Name)
    requires k < |st.units| && Covers(st, k, a) && n in st.units[k].def.refs && n in st.dict
    ensures st.dict[n].slot in Reads(a) || (!st.units[k].def.IsData() && st.dict[n].slot in Writes(a))
  {
  }
}
