/** The invariant across each elementary step of analyze_unit. */
module RecursiveSteps {
  import opened Syntax
  import opened Meanings
  import opened ScopeState
  import opened FunctionSetter
  import opened RecursiveScope
  import opened RecursiveInvariant

  /** Witnesses of lowlinks carry over to a state that keeps a prefix of the
      SCC stack with the same ords, lowlinks and kinds. */
  lemma LowOkPrefix(st: RecScope, st': RecScope, n: nat)
    requires StackOk(st) && LowOk(st) && n <= |st.sccStack| && n <= |st'.sccStack| && |st'.units| == |st.units|
    requires st'.sccStack[..n] == st.sccStack[..n]
    requires forall p :: 0 <= p < n ==>
      var k := st.sccStack[p];
      st'.units[k].ord == st.units[k].ord && st'.units[k].lowlink == st.units[k].lowlink && st'.units[k].def == st.units[k].def
    ensures forall p :: 0 <= p < n ==> LowWitnessed(st', p)
  {
    forall p | 0 <= p < n
      ensures LowWitnessed(st', p)
    {
      assert st'.sccStack[p] == st.sccStack[p];
      assert LowWitnessed(st, p);
      var u := st.units[st.sccStack[p]];
      if u.lowlink != u.ord {
        var q :| 0 <= q < p && FunctionAt(st, q) && st.units[st.sccStack[q]].ord == u.lowlink;
        assert st'.sccStack[q] == st.sccStack[q];
        assert FunctionAt(st', q);
      }
    }
  }

  // ---------------------------------------------------------------------
  // First visit

  lemma DiscoverSound(st: RecScope, i: nat)
    requires Inv(st) && i < |st.units| && st.units[i].state.NotAnalyzed?
    ensures Inv(Discover(st, i))
  {
    DiscoverStack(st, i);
    DiscoverLow(st, i);
    DiscoverGrows(st, i);
    DiscoverRefs(st, i);
    DiscoverWritten(st, i);
  }

  lemma DiscoverStack(st: RecScope, i: nat)
    requires StackOk(st) && i < |st.units| && st.units[i].state.NotAnalyzed?
    ensures StackOk(Discover(st, i))
  {
    var st1 := Discover(st, i);
    assert i !in st.sccStack;
    forall k | 0 <= k < |st1.analysisStack|
      ensures st1.analysisStack[k] in st1.sccStack
    {
      if k < |st.analysisStack| {
        assert st1.analysisStack[k] == st.analysisStack[k];
      }
    }
  }

  lemma DiscoverLow(st: RecScope, i: nat)
    requires StackOk(st) && LowOk(st) && i < |st.units| && st.units[i].state.NotAnalyzed?
    ensures LowOk(Discover(st, i))
  {
    var st1 := Discover(st, i);
    assert i !in st.sccStack;
    assert st1.sccStack[..|st.sccStack|] == st.sccStack[..|st.sccStack|];
    LowOkPrefix(st, st1, |st.sccStack|);
    assert LowWitnessed(st1, |st.sccStack|);
  }

  lemma DiscoverGrows(st: RecScope, i: nat)
    requires WellFormed(st) && i < |st.units| && st.units[i].state.NotAnalyzed?
    ensures Grows(st, Discover(st, i))
  {
  }

  lemma DiscoverRefs(st: RecScope, i: nat)
    requires StackOk(st) && RefsOk(st) && FreshOk(st) && i < |st.units| && st.units[i].state.NotAnalyzed?
    ensures RefsOk(Discover(st, i))
  {
    var st1 := Discover(st, i);
    DiscoverGrows(st, i);
    forall k, e | 0 <= k < |st1.units| && st1.units[k].state.InProgress? && e in st1.units[k].body
      ensures ExprOk(st1, k, e)
    {
      if k != i {
        ExprOkGrows(st, st1, k, e);
      }
    }
    forall k, c | 0 <= k < |st1.units| && st1.units[k].state.InProgress? && c in st1.units[k].nonlocals
      ensures c.expr.name == c.name && ExprOk(st1, k, c.expr)
    {
      if k != i {
        ExprOkGrows(st, st1, k, c.expr);
      }
    }
  }

  lemma DiscoverWritten(st: RecScope, i: nat)
    requires WrittenOk(st) && FreshOk(st) && RegOk(st) && i < |st.units| && st.units[i].state.NotAnalyzed?
    ensures WrittenOk(Discover(st, i)) && FreshOk(Discover(st, i)) && RegOk(Discover(st, i))
  {
  }

  // ---------------------------------------------------------------------
  // Leaving the analysis stack

  /** Storing the analysed right-hand side and leaving the analysis stack
      keeps everything but the link between the two stacks. */
  lemma FinishCore(mid: RecScope, i: nat, body: seq<Expr>)
    requires Core(mid) && IsTop(mid, i) && i < |mid.units|
    requires forall e :: e in body ==> ExprOk(mid, i, e)
    ensures Core(FinishAnalysis(mid, i, body))
    ensures Grows(mid, FinishAnalysis(mid, i, body))
  {
    assert i in mid.sccStack;
    FinishStack(mid, i, body);
    FinishLow(mid, i, body);
    FinishGrows(mid, i, body);
    FinishRefs(mid, i, body);
    FinishWritten(mid, i, body);
  }

  lemma FinishStack(mid: RecScope, i: nat, body: seq<Expr>)
    requires StackOk(mid) && IsTop(mid, i) && i < |mid.units|
    ensures StackOk(FinishAnalysis(mid, i, body))
  {
    var st2 := FinishAnalysis(mid, i, body);
    forall k | 0 <= k < |st2.analysisStack|
      ensures st2.analysisStack[k] in st2.sccStack
    {
      assert st2.analysisStack[k] == mid.analysisStack[k];
    }
  }

  lemma FinishLow(mid: RecScope, i: nat, body: seq<Expr>)
    requires StackOk(mid) && LowOk(mid) && IsTop(mid, i) && i < |mid.units|
    ensures LowOk(FinishAnalysis(mid, i, body))
  {
    var st2 := FinishAnalysis(mid, i, body);
    assert st2.sccStack[..|mid.sccStack|] == mid.sccStack[..|mid.sccStack|];
    LowOkPrefix(mid, st2, |mid.sccStack|);
  }

  lemma FinishGrows(mid: RecScope, i: nat, body: seq<Expr>)
    requires IsTop(mid, i) && i < |mid.units| && mid.units[i].state.InProgress?
    ensures Grows(mid, FinishAnalysis(mid, i, body))
  {
  }

  lemma FinishRefs(mid: RecScope, i: nat, body: seq<Expr>)
    requires RefsOk(mid) && IsTop(mid, i) && i < |mid.units| && mid.units[i].state.InProgress?
    requires forall e :: e in body ==> ExprOk(mid, i, e)
    ensures RefsOk(FinishAnalysis(mid, i, body))
  {
    var st2 := FinishAnalysis(mid, i, body);
    FinishGrows(mid, i, body);
    forall k, e | 0 <= k < |st2.units| && st2.units[k].state.InProgress? && e in st2.units[k].body
      ensures ExprOk(st2, k, e)
    {
      ExprOkGrows(mid, st2, k, e);
    }
    forall k, c | 0 <= k < |st2.units| && st2.units[k].state.InProgress? && c in st2.units[k].nonlocals
      ensures c.expr.name == c.name && ExprOk(st2, k, c.expr)
    {
      ExprOkGrows(mid, st2, k, c.expr);
    }
  }

  lemma FinishWritten(mid: RecScope, i: nat, body: seq<Expr>)
    requires RegOk(mid) && FreshOk(mid) && WrittenOk(mid) && IsTop(mid, i) && i < |mid.units| && mid.units[i].state.InProgress?
    ensures var st2 := FinishAnalysis(mid, i, body); RegOk(st2) && FreshOk(st2) && WrittenOk(st2)
  {
  }

  // ---------------------------------------------------------------------
  // Lowering the referrer's lowlink

  /** References recorded by units still in progress, with their captures
      and bodies untouched, stay harmless. */
  lemma RefsOkKeep(st: RecScope, st': RecScope)
    requires RefsOk(st) && Grows(st, st')
    requires forall k :: 0 <= k < |st'.units| && st'.units[k].state.InProgress? ==>
      && st.units[k].state.InProgress?
      && st'.units[k].nonlocals == st.units[k].nonlocals && st'.units[k].body == st.units[k].body
    ensures RefsOk(st')
  {
    forall k, e | 0 <= k < |st'.units| && st'.units[k].state.InProgress? && e in st'.units[k].body
      ensures ExprOk(st', k, e)
    {
      ExprOkGrows(st, st', k, e);
    }
    forall k, c | 0 <= k < |st'.units| && st'.units[k].state.InProgress? && c in st'.units[k].nonlocals
      ensures c.expr.name == c.name && ExprOk(st', k, c.expr)
    {
      ExprOkGrows(st, st', k, c.expr);
    }
  }

  /** The requirement on a new lowlink for the unit on top of the analysis
      stack: it is not lower, or it is the ord of a function unit on the SCC
      stack. */
  ghost predicate LowAllowed(st: RecScope, low: nat)
    requires |st.analysisStack| > 0 && st.analysisStack[|st.analysisStack| - 1] < |st.units|
  {
    var t := st.analysisStack[|st.analysisStack| - 1];
    low < st.units[t].lowlink ==> exists q: nat :: FunctionAt(st, q) && st.units[st.sccStack[q]].ord == low
  }

  /** Lowering the lowlink of the unit on top of the analysis stack to the
      ord of a function unit on the SCC stack (or not at all) keeps the
      invariant. */
  lemma LowerParentSound(st: RecScope, low: nat)
    requires Core(st) && |st.analysisStack| > 0 && LowAllowed(st, low)
    ensures var st' := LowerParent(st, low);
      && Core(st') && Grows(st, st')
      && st'.sccStack == st.sccStack && st'.actions == st.actions
      && var t := st.analysisStack[|st.analysisStack| - 1];
         && st'.units[t].lowlink <= st.units[t].lowlink && st'.units[t].lowlink <= low
         && (forall k :: 0 <= k < |st.units| && k != t ==> st'.units[k] == st.units[k])
  {
    LowerGrows(st, low);
    LowerLow(st, low);
    RefsOkKeep(st, LowerParent(st, low));
    LowerKeeps(st, low);
  }

  lemma LowerKeeps(st: RecScope, low: nat)
    requires StackOk(st) && RegOk(st) && FreshOk(st) && WrittenOk(st) && |st.analysisStack| > 0
    ensures var st' := LowerParent(st, low);
      StackOk(st') && RegOk(st') && FreshOk(st') && WrittenOk(st')
  {
    var t := st.analysisStack[|st.analysisStack| - 1];
    assert t in st.sccStack;
  }

  lemma LowerGrows(st: RecScope, low: nat)
    requires StackOk(st) && |st.analysisStack| > 0
    ensures Grows(st, LowerParent(st, low))
  {
    var t := st.analysisStack[|st.analysisStack| - 1];
    assert t in st.sccStack;
  }

  lemma LowerLow(st: RecScope, low: nat)
    requires StackOk(st) && LowOk(st) && |st.analysisStack| > 0 && LowAllowed(st, low)
    ensures LowOk(LowerParent(st, low))
  {
    var t := st.analysisStack[|st.analysisStack| - 1];
    assert t in st.sccStack;
    var pt :| 0 <= pt < |st.sccStack| && st.sccStack[pt] == t;
    forall p | 0 <= p < |st.sccStack|
      ensures LowWitnessed(LowerParent(st, low), p)
    {
      LowerWitness(st, low, pt, p);
    }
  }

  /** The witness of one lowlink after lowering the lowlink of the unit at
      position `pt`, the top of the analysis stack. */
  lemma LowerWitness(st: RecScope, low: nat, pt: nat, p: nat)
    requires StackOk(st) && LowOk(st) && |st.analysisStack| > 0 && LowAllowed(st, low)
    requires pt < |st.sccStack| && st.sccStack[pt] == st.analysisStack[|st.analysisStack| - 1]
    requires p < |st.sccStack|
    ensures LowWitnessed(LowerParent(st, low), p)
  {
    var t := st.sccStack[pt];
    assert LowWitnessed(st, p);
    if st.sccStack[p] == t && low < st.units[t].lowlink {
      LowLeOrd(st, pt);
      LowerWitnessTop(st, low, pt, p);
    } else {
      LowerWitnessOther(st, low, p);
    }
  }

  /** The lowered lowlink is the ord of a function unit below the top. */
  lemma LowerWitnessTop(st: RecScope, low: nat, pt: nat, p: nat)
    requires StackOk(st) && |st.analysisStack| > 0 && LowAllowed(st, low)
    requires pt < |st.sccStack| && st.sccStack[pt] == st.analysisStack[|st.analysisStack| - 1]
    requires p < |st.sccStack| && st.sccStack[p] == st.sccStack[pt]
    requires low < st.units[st.sccStack[pt]].lowlink <= st.units[st.sccStack[pt]].ord
    ensures LowWitnessed(LowerParent(st, low), p)
  {
    var st' := LowerParent(st, low);
    var q: nat :| FunctionAt(st, q) && st.units[st.sccStack[q]].ord == low;
    assert p == pt;
    assert q < pt;
    assert FunctionAt(st', q);
  }

  /** Any other lowlink keeps its witness. */
  lemma LowerWitnessOther(st: RecScope, low: nat, p: nat)
    requires WellFormed(st) && |st.analysisStack| > 0 && p < |st.sccStack| && LowWitnessed(st, p)
    requires var t := st.analysisStack[|st.analysisStack| - 1];
      st.sccStack[p] != t || low >= st.units[t].lowlink
    ensures LowWitnessed(LowerParent(st, low), p)
  {
    var st' := LowerParent(st, low);
    var u := st.units[st.sccStack[p]];
    assert st'.units[st.sccStack[p]].lowlink == u.lowlink;
    if u.lowlink != u.ord {
      var q :| 0 <= q < p && FunctionAt(st, q) && st.units[st.sccStack[q]].ord == u.lowlink;
      assert FunctionAt(st', q);
    }
  }

  // ---------------------------------------------------------------------
  // Recording a capture

  /** The scope after unit `o` records the capture of `n` as `e`. */
  function Recorded(st: RecScope, o: nat, n: Name, e: Expr): RecScope
    requires o < |st.units| && CapturesDistinct(st.units[o].nonlocals)
  {
    var u := st.units[o].(nonlocals := RecordNonlocal(st.units[o].nonlocals, n, e));
    st.(units := st.units[o := u])
  }

  lemma RecordSound(st: RecScope, o: nat, n: Name, e: Expr)
    requires Inv(st) && IsTop(st, o) && o < |st.units| && ExprOk(st, o, e) && e.name == n
    ensures Inv(Recorded(st, o, n, e)) && Step(st, Recorded(st, o, n, e))
  {
    RecordShape(st, o, n, e);
    RecordRefs(st, o, n, e);
    RecordKeeps(st, o, n, e);
  }

  /** Recording a capture of the referrer after a lookup keeps the lookup's
      Step: it changes neither stack, no lowlink and no other unit. */
  lemma RecordStep(st: RecScope, mid: RecScope, o: nat, n: Name, e: Expr)
    requires StackOk(mid) && Step(st, mid) && IsTop(st, o) && o < |mid.units|
    ensures Step(st, Recorded(mid, o, n, e))
  {
    var r := Recorded(mid, o, n, e);
    RecordShape(mid, o, n, e);
    EvolvesTrans(st, mid, r);
    GrowsTrans(st, mid, r);
    if |st.analysisStack| > 0 {
      var t := st.analysisStack[|st.analysisStack| - 1];
      forall p | |st.sccStack| <= p < |r.sccStack|
        ensures Pending(r, r.sccStack[p], t)
      {
        assert Pending(mid, mid.sccStack[p], t);
      }
    }
  }

  lemma RecordKeeps(st: RecScope, o: nat, n: Name, e: Expr)
    requires Inv(st) && IsTop(st, o) && o < |st.units|
    ensures var st' := Recorded(st, o, n, e);
      && StackOk(st') && LowOk(st') && RegOk(st') && WrittenOk(st') && FreshOk(st')
      && (|st'.analysisStack| == 0 ==> |st'.sccStack| == 0)
  {
    RecordStack(st, o, n, e);
    RecordWritten(st, o, n, e);
  }

  lemma RecordStack(st: RecScope, o: nat, n: Name, e: Expr)
    requires StackOk(st) && LowOk(st) && IsTop(st, o) && o < |st.units|
    ensures StackOk(Recorded(st, o, n, e)) && LowOk(Recorded(st, o, n, e))
  {
    var st' := Recorded(st, o, n, e);
    assert o in st.sccStack;
    RecordShape(st, o, n, e);
    assert st'.sccStack[..|st.sccStack|] == st.sccStack[..|st.sccStack|];
    LowOkPrefix(st, st', |st.sccStack|);
  }

  lemma RecordWritten(st: RecScope, o: nat, n: Name, e: Expr)
    requires StackOk(st) && RegOk(st) && WrittenOk(st) && FreshOk(st) && IsTop(st, o) && o < |st.units|
    ensures var st' := Recorded(st, o, n, e); RegOk(st') && WrittenOk(st') && FreshOk(st')
  {
    assert o in st.sccStack;
  }

  lemma RecordShape(st: RecScope, o: nat, n: Name, e: Expr)
    requires StackOk(st) && IsTop(st, o) && o < |st.units|
    ensures Evolves(st, Recorded(st, o, n, e)) && Grows(st, Recorded(st, o, n, e))
    ensures Step(st, Recorded(st, o, n, e))
  {
    var st' := Recorded(st, o, n, e);
    assert o in st.sccStack;
    RecordNonlocalDistinct(st.units[o].nonlocals, n, e);
    assert WellFormed(st');
  }

  lemma RecordRefs(st: RecScope, o: nat, n: Name, e: Expr)
    requires StackOk(st) && RefsOk(st) && IsTop(st, o) && o < |st.units| && ExprOk(st, o, e) && e.name == n
    ensures RefsOk(Recorded(st, o, n, e))
  {
    var st' := Recorded(st, o, n, e);
    assert o in st.sccStack;
    RecordShape(st, o, n, e);
    forall k, c | 0 <= k < |st'.units| && st'.units[k].state.InProgress? && c in st'.units[k].nonlocals
      ensures c.expr.name == c.name && ExprOk(st', k, c.expr)
    {
      if k == o && c == Capture(n, e) {
        ExprOkGrows(st, st', k, e);
      } else {
        assert c in st.units[k].nonlocals;
        ExprOkGrows(st, st', k, c.expr);
      }
    }
    forall k, e' | 0 <= k < |st'.units| && st'.units[k].state.InProgress? && e' in st'.units[k].body
      ensures ExprOk(st', k, e')
    {
      ExprOkGrows(st, st', k, e');
    }
  }

  // ---------------------------------------------------------------------
  // Emitting a component

  /** The state after emitting `group`, the top of the SCC stack above
      position `n`, with action `a`. */
  ghost predicate Emitted(st: RecScope, n: nat, a: Action, st': RecScope)
  {
    && n <= |st.sccStack|
    && st'.target == st.target && st'.constants == st.constants && st'.dict == st.dict
    && st'.nextSlot == st.nextSlot && st'.actionPhrases == st.actionPhrases
    && st'.sccCount == st.sccCount && st'.analysisStack == st.analysisStack
    && st'.sccStack == st.sccStack[..n]
    && st'.actions == st.actions + [a]
    && |st'.units| == |st.units|
    && (forall k :: 0 <= k < |st.units| ==>
          st'.units[k] == if k in st.sccStack[n..] then st.units[k].(state := Analyzed) else st.units[k])
  }

  /** The analysis stack lies within the first `n` entries of the SCC stack. */
  ghost predicate AnalysisBelow(st: RecScope, n: nat)
  {
    n <= |st.sccStack| && forall k :: 0 <= k < |st.analysisStack| ==> st.analysisStack[k] in st.sccStack[..n]
  }

  /** Units of the component sit above position `n`; the others, below it. */
  lemma EmitSplit(st: RecScope, n: nat)
    requires StackOk(st) && n <= |st.sccStack|
    ensures forall k :: k in st.sccStack <==> k in st.sccStack[..n] || k in st.sccStack[n..]
    ensures forall k :: k in st.sccStack[..n] ==> k !in st.sccStack[n..]
  {
    StackDistinct(st);
    assert st.sccStack == st.sccStack[..n] + st.sccStack[n..];
    forall k | k in st.sccStack[..n]
      ensures k !in st.sccStack[n..]
    {
      var x :| 0 <= x < n && st.sccStack[x] == k;
      forall y | 0 <= y < |st.sccStack[n..]|
        ensures st.sccStack[n..][y] != k
      {
        assert st.sccStack[n..][y] == st.sccStack[n + y];
      }
    }
  }

  /** Emitting a whole component whose action reads only initialised slots
      and writes the component's slots keeps the invariant. */
  lemma EmitSound(st: RecScope, n: nat, a: Action, st': RecScope)
    requires Core(st) && Emitted(st, n, a, st')
    requires AnalysisBelow(st, n)
    requires Reads(a) <= Written(st.actions)
    requires Writes(a) == GroupSlots(st.units, st.sccStack[n..])
    ensures Core(st') && Grows(st, st')
  {
    EmitShape(st, n, a, st');
    EmitRefs(st, n, a, st');
  }

  lemma EmitShape(st: RecScope, n: nat, a: Action, st': RecScope)
    requires RegOk(st) && StackOk(st) && FreshOk(st) && Emitted(st, n, a, st')
    requires AnalysisBelow(st, n)
    ensures StackOk(st') && Grows(st, st') && RegOk(st') && FreshOk(st')
  {
    EmitStack(st, n, a, st');
  }

  lemma EmitRefs(st: RecScope, n: nat, a: Action, st': RecScope)
    requires Core(st) && Emitted(st, n, a, st') && Grows(st, st')
    requires Reads(a) <= Written(st.actions)
    requires Writes(a) == GroupSlots(st.units, st.sccStack[n..])
    ensures LowOk(st') && RefsOk(st') && WrittenOk(st')
  {
    RefsOkKeep(st, st');
    LowOkPrefix(st, st', n);
    EmitWritten(st, n, a, st');
  }

  lemma EmitStack(st: RecScope, n: nat, a: Action, st': RecScope)
    requires StackOk(st) && Emitted(st, n, a, st')
    requires AnalysisBelow(st, n)
    ensures StackOk(st') && Evolves(st, st') && Grows(st, st')
  {
    EmitSplit(st, n);
    assert WellFormed(st');
    forall k | 0 <= k < |st'.units|
      ensures st'.units[k].state.InProgress? <==> k in st'.sccStack
    {
    }
  }

  lemma EmitWritten(st: RecScope, n: nat, a: Action, st': RecScope)
    requires RegOk(st) && StackOk(st) && WrittenOk(st) && Emitted(st, n, a, st')
    requires Reads(a) <= Written(st.actions)
    requires Writes(a) == GroupSlots(st.units, st.sccStack[n..])
    ensures WrittenOk(st')
  {
    EmitOrdered(st, n, a, st');
    EmitSlots(st, n, a, st');
  }

  lemma EmitOrdered(st: RecScope, n: nat, a: Action, st': RecScope)
    requires RegOk(st) && StackOk(st) && WrittenOk(st) && Emitted(st, n, a, st')
    requires Reads(a) <= Written(st.actions)
    requires Writes(a) == GroupSlots(st.units, st.sccStack[n..])
    ensures DependencyOrdered(st'.actions) && WrittenOnce(st'.actions)
  {
    GroupSlotsFresh(st, n);
    GroupSlotsDistinct(st, n);
    AppendKeepsOrder(st.actions, a);
    AppendKeepsWrittenOnce(st.actions, a);
  }

  /** The slots of units in progress are not written yet. */
  lemma GroupSlotsFresh(st: RecScope, n: nat)
    requires StackOk(st) && WrittenOk(st) && n <= |st.sccStack|
    ensures forall s :: s in GroupSlots(st.units, st.sccStack[n..]) ==> s !in Written(st.actions)
  {
    var group := st.sccStack[n..];
    var w := GroupSlots(st.units, group);
    forall s | s in w
      ensures s !in Written(st.actions)
    {
      var x :| 0 <= x < |w| && w[x] == s;
      assert group[x] in st.sccStack;
    }
  }

  /** Distinct units on the SCC stack have distinct slots. */
  lemma GroupSlotsDistinct(st: RecScope, n: nat)
    requires StackOk(st) && RegOk(st) && n <= |st.sccStack|
    ensures var w := GroupSlots(st.units, st.sccStack[n..]);
      forall x, y :: 0 <= x < y < |w| ==> w[x] != w[y]
  {
    var group := st.sccStack[n..];
    var w := GroupSlots(st.units, group);
    StackDistinct(st);
    forall x, y | 0 <= x < y < |w|
      ensures w[x] != w[y]
    {
      assert group[x] == st.sccStack[n + x] && group[y] == st.sccStack[n + y];
      assert group[x] != group[y];
      var gx, gy := group[x], group[y];
      if gx < gy {
        assert st.units[gx].slot != st.units[gy].slot;
      } else {
        assert st.units[gy].slot != st.units[gx].slot;
      }
    }
  }

  lemma EmitSlots(st: RecScope, n: nat, a: Action, st': RecScope)
    requires RegOk(st) && StackOk(st) && WrittenOk(st) && Emitted(st, n, a, st')
    requires Writes(a) == GroupSlots(st.units, st.sccStack[n..])
    ensures forall k :: 0 <= k < |st'.units| ==> (st'.units[k].state.Analyzed? <==> st'.units[k].slot in Written(st'.actions))
  {
    var group := st.sccStack[n..];
    var w := Writes(a);
    WriteListAppend(st.actions, a);
    forall k | 0 <= k < |st.units|
      ensures st'.units[k].state.Analyzed? <==> st'.units[k].slot in Written(st'.actions)
    {
      if k in group {
        var x :| 0 <= x < |group| && group[x] == k;
        assert w[x] == st.units[k].slot;
      } else {
        forall x | 0 <= x < |w|
          ensures w[x] != st.units[k].slot
        {
          assert group[x] != k;
        }
      }
    }
  }
}
