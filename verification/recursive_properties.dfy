/** Further properties of the recursive scope: analyze_unit is idempotent,
    recursion through a data definition is refused, captures are recorded
    once and constants not at all, and no initialisation action reads a
    slot it initialises itself. */
module RecursiveProperties {
  import opened Syntax
  import opened Meanings
  import opened ScopeState
  import opened RecursiveScope
  import opened RecursiveInvariant
  import opened Soundness
  import opened RecursiveAnalysis
  import opened RecursiveReferences
  import opened ActionOrder

  // ---------------------------------------------------------------------
  // analyze_unit

  /** A unit reached from top level is analysed when analyze_unit returns,
      and analysing it again, through any reference, changes nothing. */
  lemma AnalyzeUnitIdempotent(st: RecScope, i: nat, id: Name, id2: Name)
    requires Idle(st) && i < |st.units| && AnalyzeUnit(st, i, id).Ok?
    ensures var st' := AnalyzeUnit(st, i, id).value;
      && st'.units[i].state.Analyzed?
      && AnalyzeUnit(st', i, id2) == Ok(st')
  {
    AnalyzeUnitSound(st, i, id);
  }

  /** Reaching a data definition whose analysis is in progress is an
      illegal recursive reference, reported at the reference. */
  lemma InProgressDataRejected(st: RecScope, i: nat, id: Name)
    requires WellFormed(st) && i < |st.units|
    requires st.units[i].state.InProgress? && st.units[i].def.IsData()
    ensures AnalyzeUnit(st, i, id) == Err(IllegalRecursiveReference(id))
  {
  }

  /** A data definition whose right-hand side starts by looking up its own
      name is refused: the lookup reaches the unit while it is in progress. */
  lemma DataSelfReferenceRejected(st: RecScope, i: nat, id: Name)
    requires WellFormed(st) && i < |st.units|
    requires st.units[i].state.NotAnalyzed? && st.units[i].def.IsData()
    requires var d := st.units[i].def; |d.refs| > 0 && d.refs[0] == d.name
    requires st.units[i].def.name in st.dict && st.dict[st.units[i].def.name].unit == i
    ensures AnalyzeUnit(st, i, id) == Err(IllegalRecursiveReference(st.units[i].def.name))
  {
    var d := st.units[i].def;
    var st1 := Discover(st, i);
    assert st1.units[i].state.InProgress?;
    assert AnalyzeUnit(st1, i, d.name) == Err(IllegalRecursiveReference(d.name));
    assert SingleLookup(st1, d.name) == Err(IllegalRecursiveReference(d.name));
    assert Lookup(st1, d.name) == Err(IllegalRecursiveReference(d.name));
    assert EnvLookup(st1, d.name, ScopeEnv) == Err(IllegalRecursiveReference(d.name));
    assert Resolve(st1, d.refs, ScopeEnv) == Err(IllegalRecursiveReference(d.name));
  }

  // ---------------------------------------------------------------------
  // Function_Environ::single_lookup

  /** A name the enclosing scopes bind to a constant is used as it is and
      not recorded as a nonlocal. */
  lemma ConstantNotCaptured(st: RecScope, owner: nat, n: Name)
    requires WellFormed(st) && owner < |st.units|
    requires n !in st.dict && n in st.constants
    ensures CaptureLookup(st, owner, n) == Ok((st, Constant(n)))
  {
    assert SingleLookup(st, n) == Ok((st, None));
  }

  /** Any other meaning is recorded under its name once: after the lookup
      the owner's nonlocals hold exactly one entry for the name, the
      meaning just looked up. */
  lemma CapturedOnce(st: RecScope, owner: nat, n: Name)
    requires WellFormed(st) && owner < |st.units| && CaptureLookup(st, owner, n).Ok?
    requires !ScopeExpr(st, n).Constant?
    ensures var caps := CaptureLookup(st, owner, n).value.0.units[owner].nonlocals;
      && Capture(n, ScopeExpr(st, n)) in caps
      && forall c :: c in caps && c.name == n ==> c == Capture(n, ScopeExpr(st, n))
  {
    var st' := CaptureLookup(st, owner, n).value.0;
    var caps := st'.units[owner].nonlocals;
    var e := ScopeExpr(st, n);
    assert CapturesDistinct(caps);
    forall c | c in caps && c.name == n
      ensures c == Capture(n, e)
    {
      var a :| 0 <= a < |caps| && caps[a] == c;
      var b :| 0 <= b < |caps| && caps[b] == Capture(n, e);
      assert a == b;
    }
  }

  // ---------------------------------------------------------------------
  // The executable

  /** Recursive_Scope::analyze never emits a setter that reads what it
      initialises: in particular no data definition is initialised from its
      own value. */
  lemma AnalyzeNoSelfReads(target: Target, constants: set<Name>, firstSlot: nat, entries: seq<Entry>, p: nat)
    requires Analyze(target, constants, firstSlot, entries).Ok?
    requires p < |Analyze(target, constants, firstSlot, entries).value.actions|
    ensures var a := Analyze(target, constants, firstSlot, entries).value.actions[p];
      forall s :: s in Writes(a) ==> s !in Reads(a)
  {
    AnalyzeInitialisesAll(target, constants, firstSlot, entries);
    NoSelfReads(Analyze(target, constants, firstSlot, entries).value.actions, p);
  }

  /** A data definition whose right-hand side names the definition itself,
      wherever in it, makes the compound fail. */
  lemma DataSelfReferenceFails(target: Target, constants: set<Name>, firstSlot: nat, entries: seq<Entry>, j: nat)
    requires j < |Definitions(entries)|
    requires Definitions(entries)[j].IsData() && Definitions(entries)[j].name in Definitions(entries)[j].refs
    ensures Analyze(target, constants, firstSlot, entries).Err?
  {
    if Analyze(target, constants, firstSlot, entries).Ok? {
      var actions := Analyze(target, constants, firstSlot, entries).value.actions;
      AnalyzeInitialisesAll(target, constants, firstSlot, entries);
      AnalyzeFollowsReferences(target, constants, firstSlot, entries);
      NoDataSelfReference(actions, Definitions(entries), SlotBase(target, firstSlot), j);
      assert false;
    }
  }

  /** A data definition on a cycle of references, direct or transitive,
      makes the compound fail. */
  lemma DataCycleFails(target: Target, constants: set<Name>, firstSlot: nat, entries: seq<Entry>,
                       chain: seq<nat>, d: nat)
    requires Cycle(Definitions(entries), chain)
    requires d < |chain| && Definitions(entries)[chain[d]].IsData()
    ensures Analyze(target, constants, firstSlot, entries).Err?
  {
    if Analyze(target, constants, firstSlot, entries).Ok? {
      var actions, defs, base := AnalyzeOrderedFollowing(target, constants, firstSlot, entries);
      CycleAllFunctions(actions, defs, base, chain);
      assert false;
    }
  }

  /** A cycle of references among the compound's definitions, such as
      `f() = g(); g() = h(); h() = f();`, is initialised by a single action:
      the setter of its first member writes every member's slot. */
  lemma FunctionCycleShared(target: Target, constants: set<Name>, firstSlot: nat, entries: seq<Entry>,
                            exe: Executable, chain: seq<nat>, p: nat)
    requires Analyze(target, constants, firstSlot, entries) == Ok(exe)
    requires Cycle(Definitions(entries), chain)
    requires p < |exe.actions| && SlotBase(target, firstSlot) + chain[0] in Writes(exe.actions[p])
    ensures WritesChain(exe.actions[p], SlotBase(target, firstSlot), chain)
  {
    AnalysisOrder(target, constants, firstSlot, entries, exe);
    CycleShared(exe.actions, Definitions(entries), SlotBase(target, firstSlot), chain, p);
  }

  /** `AnalyzeOrderedFollowing` stated about the executable itself. */
  lemma AnalysisOrder(target: Target, constants: set<Name>, firstSlot: nat, entries: seq<Entry>, exe: Executable)
    requires Analyze(target, constants, firstSlot, entries) == Ok(exe)
    ensures OrderedFollowing(exe.actions, Definitions(entries), SlotBase(target, firstSlot))
  {
    var actions, defs, base := AnalyzeOrderedFollowing(target, constants, firstSlot, entries);
  }

  /** Two definitions that name each other, one of them data (`x = y; y = x;`
      or `x = f(); f() = x;`), make the compound fail. */
  lemma MutualDataFails(target: Target, constants: set<Name>, firstSlot: nat, entries: seq<Entry>, j: nat, m: nat)
    requires j < |Definitions(entries)| && m < |Definitions(entries)|
    requires Definitions(entries)[m].name in Definitions(entries)[j].refs
    requires Definitions(entries)[j].name in Definitions(entries)[m].refs
    requires Definitions(entries)[j].IsData()
    ensures Analyze(target, constants, firstSlot, entries).Err?
  {
    DataCycleFails(target, constants, firstSlot, entries, [j, m], 0);
  }

  /** Recursive_Scope::analyze yields an initialisation order: one writer
      per slot, every reader after its writer, every setter accounting for
      the names its definitions use, and every definition's slot written.
      With ActionOrder.MutualRecursionShared this puts two functions that
      name each other in one setter. */
  lemma AnalyzeOrderedFollowing(target: Target, constants: set<Name>, firstSlot: nat, entries: seq<Entry>)
    returns (actions: seq<Action>, defs: seq<Definition>, base: nat)
    requires Analyze(target, constants, firstSlot, entries).Ok?
    ensures actions == Analyze(target, constants, firstSlot, entries).value.actions
    ensures defs == Definitions(entries) && base == SlotBase(target, firstSlot)
    ensures OrderedFollowing(actions, defs, base)
  {
    actions := Analyze(target, constants, firstSlot, entries).value.actions;
    defs := Definitions(entries);
    base := SlotBase(target, firstSlot);
    AnalyzeInitialisesAll(target, constants, firstSlot, entries);
    OrderFacts(actions);
    AnalyzeFollowsReferences(target, constants, firstSlot, entries);
  }
}
