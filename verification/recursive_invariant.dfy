/** The invariant of a Recursive_Scope during lazy analysis, and the
    relation between the state before and after one lookup.

    Tarjan's algorithm is correct because of facts about the SCC stack
    (it holds exactly the units in progress, in discovery order), about
    lowlinks (each is the ord of the unit itself or of a function unit
    below it on the stack) and about every reference recorded so far
    (it designates a unit already initialised, or one still on the stack
    no lower than the referrer's lowlink).  From these, every emitted
    action reads only slots that earlier actions wrote. */
module RecursiveInvariant {
  import opened Syntax
  import opened Meanings
  import opened ScopeState
  import opened RecursiveScope

  /** Each bound name designates the unit that defines it, and that unit's
      slot; no two units share a slot. */
  ghost predicate RegOk(st: RecScope)
  {
    && (forall n :: n in st.dict ==>
          && st.dict[n].unit < |st.units|
          && st.units[st.dict[n].unit].def.name == n
          && st.units[st.dict[n].unit].slot == st.dict[n].slot)
    && (forall a, b :: 0 <= a < b < |st.units| ==> st.units[a].slot != st.units[b].slot)
  }

  /** The SCC stack holds exactly the units in progress, in increasing
      discovery order; the analysis stack is made of units on it. */
  ghost predicate StackOk(st: RecScope)
  {
    && WellFormed(st)
    && (forall k :: 0 <= k < |st.units| ==> (st.units[k].state.InProgress? <==> k in st.sccStack))
    && (forall p, q :: 0 <= p < q < |st.sccStack| ==> st.units[st.sccStack[p]].ord < st.units[st.sccStack[q]].ord)
    && (forall p :: 0 <= p < |st.sccStack| ==> st.units[st.sccStack[p]].ord < st.sccCount)
    && (forall k :: 0 <= k < |st.analysisStack| ==> st.analysisStack[k] in st.sccStack)
  }

  /** The unit at position `p` of the SCC stack is a function. */
  ghost predicate FunctionAt(st: RecScope, q: nat)
  {
    q < |st.sccStack| && st.sccStack[q] < |st.units| && !st.units[st.sccStack[q]].def.IsData()
  }

  /** The lowlink of the unit at position `p` of the SCC stack is its own
      ord, or the ord of a function unit below it. */
  ghost predicate LowWitnessed(st: RecScope, p: nat)
  {
    p < |st.sccStack| && st.sccStack[p] < |st.units| &&
    var u := st.units[st.sccStack[p]];
    || u.lowlink == u.ord
    || exists q :: 0 <= q < p && FunctionAt(st, q) && st.units[st.sccStack[q]].ord == u.lowlink
  }

  ghost predicate LowOk(st: RecScope)
  {
    forall p :: 0 <= p < |st.sccStack| ==> LowWitnessed(st, p)
  }

  /** A unit not yet analysed has captured nothing and has no body. */
  ghost predicate FreshOk(st: RecScope)
  {
    forall k :: 0 <= k < |st.units| && st.units[k].state.NotAnalyzed? ==>
      st.units[k].nonlocals == [] && st.units[k].body == []
  }

  /** A reference from unit `u` to unit `j` is harmless: `j` is initialised
      already, or it is on the SCC stack no lower than `u`'s lowlink, so
      that it ends up in `u`'s component or in one emitted before it.  A
      data unit never refers to itself. */
  ghost predicate RefOk(st: RecScope, u: nat, j: nat)
  {
    && u < |st.units| && j < |st.units|
    && (|| st.units[j].state.Analyzed?
        || (&& st.units[j].state.InProgress?
            && st.units[u].lowlink <= st.units[j].ord
            && (j == u ==> !st.units[u].def.IsData())))
  }

  /** A resolved reference recorded by unit `u`. */
  ghost predicate ExprOk(st: RecScope, u: nat, e: Expr)
  {
    e.ReadsSlot() ==>
      && e.name in st.dict
      && e.slot == st.dict[e.name].slot
      && RefOk(st, u, st.dict[e.name].unit)
  }

  /** Every capture and every body reference of a unit in progress. */
  ghost predicate RefsOk(st: RecScope)
  {
    && (forall k, c :: 0 <= k < |st.units| && st.units[k].state.InProgress? && c in st.units[k].nonlocals ==>
          c.expr.name == c.name && ExprOk(st, k, c.expr))
    && (forall k, e :: 0 <= k < |st.units| && st.units[k].state.InProgress? && e in st.units[k].body ==>
          ExprOk(st, k, e))
  }

  /** The actions so far initialise exactly the analysed units, once each,
      in dependency order. */
  ghost predicate WrittenOk(st: RecScope)
  {
    && (forall k :: 0 <= k < |st.units| ==> (st.units[k].state.Analyzed? <==> st.units[k].slot in Written(st.actions)))
    && DependencyOrdered(st.actions)
    && WrittenOnce(st.actions)
  }

  ghost predicate Core(st: RecScope)
  {
    RegOk(st) && StackOk(st) && LowOk(st) && FreshOk(st) && RefsOk(st) && WrittenOk(st)
  }

  /** The invariant between lookups: outside any analysis nothing is in progress. */
  ghost predicate Inv(st: RecScope)
  {
    Core(st) && (|st.analysisStack| == 0 ==> |st.sccStack| == 0)
  }

  // ---------------------------------------------------------------------
  // One lookup, seen from the unit on top of the analysis stack

  ghost predicate IsTop(st: RecScope, k: nat)
  {
    |st.analysisStack| > 0 && k == st.analysisStack[|st.analysisStack| - 1]
  }

  /** Units are only ever started and finished; a unit in progress keeps
      its ord and its lowlink can only fall. */
  ghost predicate Grows(st: RecScope, st': RecScope)
  {
    && st'.dict == st.dict
    && UnitsEvolve(st.units, st'.units)
    && (forall k :: 0 <= k < |st.units| && st.units[k].state.Analyzed? ==> st'.units[k].state.Analyzed?)
    && (forall k :: 0 <= k < |st.units| && st.units[k].state.InProgress? ==>
          || st'.units[k].state.Analyzed?
          || (&& st'.units[k].state.InProgress?
              && st'.units[k].ord == st.units[k].ord
              && st'.units[k].lowlink <= st.units[k].lowlink))
  }

  /** A unit left on the SCC stack above the stack as it was: it belongs to
      a component not yet closed, whose root is not above the referrer `t`. */
  ghost predicate Pending(st: RecScope, v: nat, t: nat)
  {
    && v < |st.units| && t < |st.units|
    && st.units[v].lowlink < st.units[v].ord
    && st.units[t].lowlink <= st.units[v].lowlink
  }

  /** What a lookup does to the scope: it only pushes onto the SCC stack and
      appends actions; it changes no unit in progress except for lowering
      the lowlink (or recording captures) of the unit on top of the analysis
      stack; every unit it leaves on the SCC stack is pending below that
      unit's lowlink; at top level it leaves the SCC stack as it was. */
  ghost predicate Step(st: RecScope, st': RecScope)
  {
    && Evolves(st, st')
    && Grows(st, st')
    && st.sccStack <= st'.sccStack
    && st.actions <= st'.actions
    && (forall k :: 0 <= k < |st.units| && st.units[k].state.InProgress? && !IsTop(st, k) ==> st'.units[k] == st.units[k])
    && (|st.analysisStack| == 0 ==> st'.sccStack == st.sccStack)
    && (|st.analysisStack| > 0 ==>
          forall p :: |st.sccStack| <= p < |st'.sccStack| ==>
            Pending(st', st'.sccStack[p], st.analysisStack[|st.analysisStack| - 1]))
  }

  /** The unit a lookup reached: harmless for the referrer, and analysed
      when there is no referrer. */
  ghost predicate Reached(st: RecScope, j: nat)
  {
    if |st.analysisStack| > 0 then RefOk(st, st.analysisStack[|st.analysisStack| - 1], j)
    else j < |st.units| && st.units[j].state.Analyzed?
  }

  /** A looked-up meaning: a slot reference designates a reached unit. */
  ghost predicate ResultOk(st: RecScope, e: Expr)
  {
    e.ReadsSlot() ==>
      && e.name in st.dict
      && e.slot == st.dict[e.name].slot
      && Reached(st, st.dict[e.name].unit)
  }

  // ---------------------------------------------------------------------
  // Basic consequences

  /** A meaning looked up for the unit on top of the analysis stack is a
      harmless reference of that unit. */
  lemma ResultIsExprOk(st: RecScope, u: nat, e: Expr)
    requires IsTop(st, u) && ResultOk(st, e)
    ensures ExprOk(st, u, e)
  {
  }


  /** Units on the SCC stack are distinct. */
  lemma StackDistinct(st: RecScope)
    requires StackOk(st)
    ensures forall p, q :: 0 <= p < q < |st.sccStack| ==> st.sccStack[p] != st.sccStack[q]
  {
  }

  /** The position of a unit on the SCC stack is fixed by its ord. */
  lemma StackPosition(st: RecScope, p: nat, j: nat)
    requires StackOk(st) && p < |st.sccStack| && j in st.sccStack
    requires st.units[st.sccStack[p]].ord <= st.units[j].ord
    ensures exists q :: p <= q < |st.sccStack| && st.sccStack[q] == j
  {
    var q :| 0 <= q < |st.sccStack| && st.sccStack[q] == j;
    assert p <= q;
  }

  /** A lowlink never exceeds its unit's ord. */
  lemma LowLeOrd(st: RecScope, p: nat)
    requires StackOk(st) && LowOk(st) && p < |st.sccStack|
    ensures st.units[st.sccStack[p]].lowlink <= st.units[st.sccStack[p]].ord
  {
    assert LowWitnessed(st, p);
    var u := st.units[st.sccStack[p]];
    if u.lowlink != u.ord {
      var q :| 0 <= q < p && FunctionAt(st, q) && st.units[st.sccStack[q]].ord == u.lowlink;
    }
  }

  /** The analysis stack is never empty while some unit is in progress. */
  lemma InProgressHasReferrer(st: RecScope, i: nat)
    requires Inv(st) && i < |st.units| && st.units[i].state.InProgress?
    ensures |st.analysisStack| > 0
  {
    assert i in st.sccStack;
  }

  lemma StepRefl(st: RecScope)
    requires Inv(st)
    ensures Step(st, st)
  {
  }

  /** A harmless reference stays harmless as analysis proceeds. */
  lemma RefOkGrows(st: RecScope, st': RecScope, u: nat, j: nat)
    requires Grows(st, st') && RefOk(st, u, j)
    requires st.units[u].state.InProgress? && st'.units[u].state.InProgress?
    ensures RefOk(st', u, j)
  {
  }

  lemma ExprOkGrows(st: RecScope, st': RecScope, u: nat, e: Expr)
    requires Grows(st, st') && ExprOk(st, u, e) && u < |st.units|
    requires st.units[u].state.InProgress? && st'.units[u].state.InProgress?
    ensures ExprOk(st', u, e)
  {
    if e.ReadsSlot() {
      RefOkGrows(st, st', u, st.dict[e.name].unit);
    }
  }

  /** The unit on top of the analysis stack stays in progress across a lookup. */
  lemma TopStays(st: RecScope, st': RecScope)
    requires StackOk(st) && StackOk(st') && Step(st, st') && |st.analysisStack| > 0
    ensures var t := st.analysisStack[|st.analysisStack| - 1];
      t < |st.units| && st.units[t].state.InProgress? && st'.units[t].state.InProgress?
  {
    var t := st.analysisStack[|st.analysisStack| - 1];
    assert t in st.sccStack;
    var q :| 0 <= q < |st.sccStack| && st.sccStack[q] == t;
    assert st'.sccStack[q] == t;
  }

  lemma ResultOkStep(st1: RecScope, st2: RecScope, e: Expr)
    requires Inv(st1) && Inv(st2) && Step(st1, st2) && ResultOk(st1, e)
    ensures ResultOk(st2, e)
  {
    if e.ReadsSlot() && |st1.analysisStack| > 0 {
      TopStays(st1, st2);
      RefOkGrows(st1, st2, st1.analysisStack[|st1.analysisStack| - 1], st1.dict[e.name].unit);
    }
  }

  lemma GrowsTrans(a: RecScope, b: RecScope, c: RecScope)
    requires Grows(a, b) && Grows(b, c)
    ensures Grows(a, c)
  {
  }

  lemma StepTrans(a: RecScope, b: RecScope, c: RecScope)
    requires StackOk(a) && StackOk(b) && StackOk(c) && Step(a, b) && Step(b, c)
    ensures Step(a, c)
  {
    EvolvesTrans(a, b, c);
    GrowsTrans(a, b, c);
    FrameTrans(a, b, c);
    if |a.analysisStack| > 0 {
      PendingTrans(a, b, c);
    }
  }

  lemma FrameTrans(a: RecScope, b: RecScope, c: RecScope)
    requires Step(a, b) && Step(b, c)
    ensures forall k :: 0 <= k < |a.units| && a.units[k].state.InProgress? && !IsTop(a, k) ==> c.units[k] == a.units[k]
  {
  }

  lemma PendingTrans(a: RecScope, b: RecScope, c: RecScope)
    requires StackOk(a) && StackOk(b) && Step(a, b) && Step(b, c) && |a.analysisStack| > 0
    requires forall k :: 0 <= k < |c.units| ==> (c.units[k].state.InProgress? <==> k in c.sccStack)
    ensures forall p :: |a.sccStack| <= p < |c.sccStack| ==>
      Pending(c, c.sccStack[p], a.analysisStack[|a.analysisStack| - 1])
  {
    var t := a.analysisStack[|a.analysisStack| - 1];
    assert t in a.sccStack;
    var q :| 0 <= q < |a.sccStack| && a.sccStack[q] == t;
    assert b.sccStack[q] == t && c.sccStack[q] == t;
    assert IsTop(b, t);
    assert c.units[t].lowlink <= b.units[t].lowlink;
    PendingAll(b, c, |a.sccStack|, t, q);
  }

  /** The units above position `n` of the SCC stack that the first lookup
      left pending below `t` stay pending across the second, and the second
      leaves its own above them. */
  lemma PendingAll(b: RecScope, c: RecScope, n: nat, t: nat, q: nat)
    requires q < n <= |b.sccStack| && b.sccStack[q] == t && IsTop(b, t)
    requires b.sccStack <= c.sccStack && |c.units| == |b.units|
    requires forall x :: 0 <= x < |b.sccStack| ==> b.sccStack[x] < |b.units|
    requires forall x, y :: 0 <= x < y < |b.sccStack| ==> b.units[b.sccStack[x]].ord < b.units[b.sccStack[y]].ord
    requires forall k :: 0 <= k < |b.units| ==> (b.units[k].state.InProgress? <==> k in b.sccStack)
    requires forall p :: n <= p < |b.sccStack| ==> Pending(b, b.sccStack[p], t)
    requires forall p :: |b.sccStack| <= p < |c.sccStack| ==> Pending(c, c.sccStack[p], b.analysisStack[|b.analysisStack| - 1])
    requires forall k :: 0 <= k < |b.units| && b.units[k].state.InProgress? && !IsTop(b, k) ==> c.units[k] == b.units[k]
    requires c.units[t].lowlink <= b.units[t].lowlink
    ensures forall p :: n <= p < |c.sccStack| ==> Pending(c, c.sccStack[p], t)
  {
    forall p | n <= p < |c.sccStack|
      ensures Pending(c, c.sccStack[p], t)
    {
      if p < |b.sccStack| {
        var v := b.sccStack[p];
        assert Pending(b, v, t);
        assert b.units[b.sccStack[q]].ord < b.units[v].ord;
        assert b.units[v].state.InProgress?;
        assert c.units[v] == b.units[v];
      }
    }
  }
}
