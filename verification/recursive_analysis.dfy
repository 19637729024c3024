/** Recursive_Scope::analyze as a whole: registration numbers the
    definitions' slots in source order, and the executable it produces
    initialises every definition once, in dependency order. */
module RecursiveAnalysis {
  import opened Syntax
  import opened Meanings
  import opened ScopeState
  import opened RecursiveScope
  import opened RecursiveInvariant
  import opened Soundness
  import opened RecursiveSlots

  /** The definitions of a compound, in source order. */
  function Definitions(entries: seq<Entry>): (r: seq<Definition>)
    ensures |r| == |DefNames(entries)|
    ensures forall k :: 0 <= k < |r| ==> r[k].name == DefNames(entries)[k]
  {
    if |entries| == 0 then []
    else (if entries[0].DefEntry? then [entries[0].def] else []) + Definitions(entries[1..])
  }

  /** The statements of a compound, in source order. */
  function Phrases(entries: seq<Entry>): seq<seq<Name>>
  {
    if |entries| == 0 then []
    else (if entries[0].ActionEntry? then [entries[0].refs] else []) + Phrases(entries[1..])
  }

  function UnitDefs(units: seq<Unit>): (r: seq<Definition>)
    ensures |r| == |units| && forall k :: 0 <= k < |units| ==> r[k] == units[k].def
  {
    seq(|units|, k requires 0 <= k < |units| => units[k].def)
  }

  function UnitNames(units: seq<Unit>): (r: seq<Name>)
    ensures |r| == |units| && forall k :: 0 <= k < |units| ==> r[k] == units[k].def.name
  {
    seq(|units|, k requires 0 <= k < |units| => units[k].def.name)
  }

  // ---------------------------------------------------------------------
  // Registration

  /** The state of a scope during registration: nothing analysed, and the
      unit registered k-th owns slot base + k and its name. */
  ghost predicate Registered(st: RecScope, base: nat)
  {
    && st.sccStack == [] && st.analysisStack == [] && st.actions == []
    && (st.target.Frame? ==> st.nextSlot == base + |st.units|)
    && (st.target.Module? ==> base == 0)
    && |st.dict| == |st.units|
    && (forall n :: n in st.dict ==> st.dict[n].unit < |st.units| && st.units[st.dict[n].unit].def.name == n)
    && (forall k :: 0 <= k < |st.units| ==>
          st.units[k].def.name in st.dict && st.dict[st.units[k].def.name] == Binding(base + k, k))
    && (forall k :: 0 <= k < |st.units| ==> st.units[k] == NewUnit(st.units[k].def).(slot := base + k))
  }

  lemma EmptyRegistered(target: Target, constants: set<Name>, firstSlot: nat)
    ensures Registered(EmptyScope(target, constants, firstSlot), SlotBase(target, firstSlot))
  {
  }

  /** The scope after registering one definition. */
  lemma AddDefinitionShape(st: RecScope, def: Definition)
    requires AddDefinition(st, def).Ok?
    ensures var s := if st.target.Module? then |st.dict| else st.nextSlot;
      AddDefinition(st, def).value == st.(
        units := st.units + [NewUnit(def).(slot := s)],
        dict := st.dict[def.name := Binding(s, |st.units|)],
        nextSlot := if st.target.Module? then st.nextSlot else st.nextSlot + 1)
  {
  }

  /** Registering a definition appends its unit with the next slot. */
  lemma AddDefinitionRegistered(st: RecScope, base: nat, def: Definition)
    requires Registered(st, base) && AddDefinition(st, def).Ok?
    ensures var st' := AddDefinition(st, def).value;
      && Registered(st', base) && UnitDefs(st'.units) == UnitDefs(st.units) + [def]
      && UnitNames(st'.units) == UnitNames(st.units) + [def.name]
      && st'.actionPhrases == st.actionPhrases && st'.target == st.target && st'.constants == st.constants
  {
    AddDefinitionShape(st, def);
    RegisteredExtend(st, base, def, AddDefinition(st, def).value);
    UnitDefsAppend(st.units, AddDefinition(st, def).value.units[|st.units|]);
    assert AddDefinition(st, def).value.units == st.units + [AddDefinition(st, def).value.units[|st.units|]];
    NamesOfDefs(AddDefinition(st, def).value.units, st.units, def);
  }

  lemma RegisteredExtend(st: RecScope, base: nat, def: Definition, st': RecScope)
    requires Registered(st, base) && def.name !in st.dict
    requires var s := if st.target.Module? then |st.dict| else st.nextSlot;
      st' == st.(
        units := st.units + [NewUnit(def).(slot := s)],
        dict := st.dict[def.name := Binding(s, |st.units|)],
        nextSlot := if st.target.Module? then st.nextSlot else st.nextSlot + 1)
    ensures Registered(st', base)
  {
    var s := if st.target.Module? then |st.dict| else st.nextSlot;
    assert s == base + |st.units|;
    ExtendDict(st.dict, st.units, def, s, st'.dict, st'.units);
    ExtendUnits(st.dict, st.units, def, base, s, st'.dict, st'.units);
  }

  /** Every binding still names its own unit once the new unit is appended. */
  lemma ExtendDict(dict: map<Name, Binding>, units: seq<Unit>, def: Definition, s: nat,
                   dict': map<Name, Binding>, units': seq<Unit>)
    requires forall n :: n in dict ==> dict[n].unit < |units| && units[dict[n].unit].def.name == n
    requires |dict| == |units| && def.name !in dict
    requires dict' == dict[def.name := Binding(s, |units|)] && units' == units + [NewUnit(def).(slot := s)]
    ensures |dict'| == |units'|
    ensures forall n :: n in dict' ==> dict'[n].unit < |units'| && units'[dict'[n].unit].def.name == n
  {
    forall n | n in dict'
      ensures dict'[n].unit < |units'| && units'[dict'[n].unit].def.name == n
    {
      if n != def.name {
        assert dict'[n] == dict[n];
        assert units'[dict[n].unit] == units[dict[n].unit];
      }
    }
  }

  /** Every unit, the new one included, still has its binding and its slot. */
  lemma ExtendUnits(dict: map<Name, Binding>, units: seq<Unit>, def: Definition, base: nat, s: nat,
                    dict': map<Name, Binding>, units': seq<Unit>)
    requires forall k :: 0 <= k < |units| ==> units[k].def.name in dict && dict[units[k].def.name] == Binding(base + k, k)
    requires forall k :: 0 <= k < |units| ==> units[k] == NewUnit(units[k].def).(slot := base + k)
    requires def.name !in dict && s == base + |units|
    requires dict' == dict[def.name := Binding(s, |units|)] && units' == units + [NewUnit(def).(slot := s)]
    ensures forall k :: 0 <= k < |units'| ==> units'[k].def.name in dict' && dict'[units'[k].def.name] == Binding(base + k, k)
    ensures forall k :: 0 <= k < |units'| ==> units'[k] == NewUnit(units'[k].def).(slot := base + k)
  {
    forall k | 0 <= k < |units'|
      ensures units'[k].def.name in dict' && dict'[units'[k].def.name] == Binding(base + k, k)
      ensures units'[k] == NewUnit(units'[k].def).(slot := base + k)
    {
      if k < |units| {
        assert units'[k] == units[k];
        assert units[k].def.name in dict;
      }
    }
  }

  lemma UnitDefsAppend(units: seq<Unit>, v: Unit)
    ensures UnitDefs(units + [v]) == UnitDefs(units) + [v.def]
  {
    assert forall k :: 0 <= k < |units| ==> (units + [v])[k] == units[k];
  }

  lemma NamesOfDefs(a: seq<Unit>, b: seq<Unit>, def: Definition)
    requires UnitDefs(a) == UnitDefs(b) + [def]
    ensures UnitNames(a) == UnitNames(b) + [def.name]
  {
    assert |a| == |b| + 1;
    forall k | 0 <= k < |a|
      ensures UnitNames(a)[k] == (UnitNames(b) + [def.name])[k]
    {
      assert UnitDefs(a)[k] == a[k].def;
    }
  }

  lemma AddEntryRegistered(st: RecScope, base: nat, e: Entry)
    requires Registered(st, base) && AddEntry(st, e).Ok?
    ensures var st' := AddEntry(st, e).value;
      && Registered(st', base) && st'.target == st.target && st'.constants == st.constants
      && UnitDefs(st'.units) == UnitDefs(st.units) + (if e.DefEntry? then [e.def] else [])
      && UnitNames(st'.units) == UnitNames(st.units) + (if e.DefEntry? then [e.def.name] else [])
      && st'.actionPhrases == st.actionPhrases + (if e.ActionEntry? then [e.refs] else [])
  {
    if e.DefEntry? {
      AddDefinitionRegistered(st, base, e.def);
    }
  }

  /** add_to_scope registers the definitions in source order and keeps the
      statements for later, in source order. */
  lemma {:induction false} AddToScopeRegistered(st: RecScope, base: nat, entries: seq<Entry>)
    requires Registered(st, base) && AddToScope(st, entries).Ok?
    ensures var st' := AddToScope(st, entries).value;
      && Registered(st', base) && st'.target == st.target && st'.constants == st.constants
      && UnitDefs(st'.units) == UnitDefs(st.units) + Definitions(entries)
      && st'.actionPhrases == st.actionPhrases + Phrases(entries)
    decreases |entries|
  {
    if |entries| > 0 {
      var e := entries[0];
      AddEntryRegistered(st, base, e);
      var st1 := AddEntry(st, e).value;
      AddToScopeRegistered(st1, base, entries[1..]);
      var st' := AddToScope(st1, entries[1..]).value;
      assert AddToScope(st, entries).value == st';
      var ds := if e.DefEntry? then [e.def] else [];
      var ps := if e.ActionEntry? then [e.refs] else [];
      assert Definitions(entries) == ds + Definitions(entries[1..]);
      assert Phrases(entries) == ps + Phrases(entries[1..]);
      SeqAssoc(UnitDefs(st.units), ds, Definitions(entries[1..]));
      SeqAssoc(st.actionPhrases, ps, Phrases(entries[1..]));
    } else {
      assert Definitions(entries) == [] && Phrases(entries) == [];
    }
  }

  lemma SeqAssoc<T>(a: seq<T>, b: seq<T>, c: seq<T>)
    ensures (a + b) + c == a + (b + c)
  {
  }

  /** The names of registered units are distinct, and are the names bound. */
  lemma RegisteredNames(st: RecScope, base: nat)
    requires Registered(st, base)
    ensures NoDuplicates(UnitNames(st.units))
    ensures forall n :: n in st.dict <==> n in UnitNames(st.units)
  {
    var names := UnitNames(st.units);
    forall a, b | 0 <= a < b < |names|
      ensures names[a] != names[b]
    {
      assert st.dict[names[a]].unit == a && st.dict[names[b]].unit == b;
    }
    forall n | n in st.dict
      ensures n in names
    {
      assert names[st.dict[n].unit] == n;
    }
  }

  lemma DuplicateAtHead<T>(names: seq<T>, n: T, rest: seq<T>)
    requires n in names
    ensures !NoDuplicates(names + ([n] + rest))
  {
    var j :| 0 <= j < |names| && names[j] == n;
    assert (names + ([n] + rest))[j] == (names + ([n] + rest))[|names|];
  }

  /** Registration fails exactly when some name would be bound twice, and
      reports a name of the compound. */
  lemma {:induction false} AddToScopeRejectsDuplicates(st: RecScope, base: nat, entries: seq<Entry>)
    requires Registered(st, base)
    ensures AddToScope(st, entries).Err? <==> !NoDuplicates(UnitNames(st.units) + DefNames(entries))
    ensures AddToScope(st, entries).Err? ==>
      && AddToScope(st, entries).error.MultiplyDefined?
      && AddToScope(st, entries).error.name in DefNames(entries)
    decreases |entries|
  {
    RegisteredNames(st, base);
    var names := UnitNames(st.units);
    if |entries| == 0 {
      assert names + DefNames(entries) == names;
    } else {
      var e := entries[0];
      var rest := DefNames(entries[1..]);
      var ds := if e.DefEntry? then [e.def.name] else [];
      assert DefNames(entries) == ds + rest;
      if e.DefEntry? && e.def.name in st.dict {
        assert AddToScope(st, entries) == Err(MultiplyDefined(e.def.name));
        DuplicateAtHead(names, e.def.name, rest);
      } else {
        AddEntryRegistered(st, base, e);
        var st1 := AddEntry(st, e).value;
        assert AddToScope(st, entries) == AddToScope(st1, entries[1..]);
        AddToScopeRejectsDuplicates(st1, base, entries[1..]);
        SeqAssoc(names, ds, rest);
      }
    }
  }

  /** The scope between top-level lookups: the invariant, and no analysis
      under way. */
  ghost predicate Idle(st: RecScope)
  {
    Inv(st) && |st.analysisStack| == 0
  }

  /** Before analysis starts, the invariant of lazy analysis holds. */
  lemma RegisteredWellFormed(st: RecScope, base: nat)
    requires Registered(st, base)
    ensures WellFormed(st)
  {
  }

  lemma RegisteredInv(st: RecScope, base: nat)
    requires Registered(st, base)
    ensures Idle(st)
  {
    assert WellFormed(st);
    assert WrittenOk(st) by {
      assert WriteList(st.actions) == [];
    }
  }

  // ---------------------------------------------------------------------
  // Analysis

  /** A statement reads only slots already initialised. */
  lemma StatementSound(q: RecScope, body: seq<Expr>)
    requires Inv(q) && |q.analysisStack| == 0 && forall e :: e in body ==> ResultOk(q, e)
    ensures Inv(q.(actions := q.actions + [Statement(body)]))
  {
    var a := Statement(body);
    forall s | s in Reads(a)
      ensures s in Written(q.actions)
    {
      var e :| e in body && e.ReadsSlot() && e.slot == s;
      assert ResultOk(q, e);
    }
    WriteListAppend(q.actions, a);
    AppendKeepsOrder(q.actions, a);
    assert WriteList(q.actions + [a]) == WriteList(q.actions);
  }

  lemma {:induction false} AnalyzeActionsSound(st: RecScope, k: nat)
    requires Idle(st) && k <= |st.actionPhrases| && AnalyzeActions(st, k).Ok?
    ensures Idle(AnalyzeActions(st, k).value)
    decreases |st.actionPhrases| - k
  {
    if k < |st.actionPhrases| {
      ResolveSound(st, st.actionPhrases[k], ScopeEnv);
      var p := Resolve(st, st.actionPhrases[k], ScopeEnv).value;
      StatementSound(p.0, p.1);
      var st1 := p.0.(actions := p.0.actions + [Statement(p.1)]);
      AnalyzeActionsSound(st1, k + 1);
    }
  }

  lemma {:induction false} AnalyzeRemainingSound(st: RecScope, k: nat)
    requires Idle(st) && k <= |st.units| && AnalyzeRemaining(st, k).Ok?
    ensures Idle(AnalyzeRemaining(st, k).value)
    decreases |st.units| - k
  {
    if k < |st.units| {
      if st.units[k].state.NotAnalyzed? {
        AnalyzeUnitSound(st, k, st.units[k].def.name);
        var st1 := AnalyzeUnit(st, k, st.units[k].def.name).value;
        AnalyzeRemainingSound(st1, k + 1);
      } else {
        AnalyzeRemainingSound(st, k + 1);
      }
    }
  }

  /** One step of the statement loop of analyze: statement k is resolved
      and appended, and the rest of the loop continues from there. */
  lemma ActionStep(st: RecScope, k: nat) returns (mid: RecScope, body: seq<Expr>, st1: RecScope)
    requires Idle(st) && k < |st.actionPhrases| && AnalyzeActions(st, k).Ok?
    ensures Resolve(st, st.actionPhrases[k], ScopeEnv) == Ok((mid, body))
    ensures st1 == mid.(actions := mid.actions + [Statement(body)])
    ensures Idle(st1) && |st1.actionPhrases| == |st.actionPhrases|
    ensures AnalyzeActions(st, k) == AnalyzeActions(st1, k + 1)
  {
    ResolveSound(st, st.actionPhrases[k], ScopeEnv);
    var p := Resolve(st, st.actionPhrases[k], ScopeEnv).value;
    mid, body := p.0, p.1;
    StatementSound(mid, body);
    st1 := mid.(actions := mid.actions + [Statement(body)]);
  }

  /** The scope after the outer loop's step at unit j of the idle scope s:
      the unit is analysed when it is fresh and left alone otherwise. */
  ghost function StepFrom(s: RecScope, j: nat): Option<RecScope>
  {
    if Idle(s) && j < |s.units| then
      if !s.units[j].state.NotAnalyzed? then Some(s)
      else if AnalyzeUnit(s, j, s.units[j].def.name).Ok? then Some(AnalyzeUnit(s, j, s.units[j].def.name).value)
      else None
    else None
  }

  lemma StepFromFacts(s: RecScope, j: nat, s': RecScope)
    requires StepFrom(s, j) == Some(s')
    ensures Idle(s) && j < |s.units|
    ensures s.units[j].state.NotAnalyzed? ==> AnalyzeUnit(s, j, s.units[j].def.name) == Ok(s')
    ensures !s.units[j].state.NotAnalyzed? ==> s' == s
  {
  }

  /** The outer loop, run step by step from unit k of st, ends at fin. */
  ghost predicate Runs(st: RecScope, k: nat, fin: RecScope)
    decreases |st.units| - k
  {
    if k >= |st.units| then fin == st
    else
      && StepFrom(st, k).Some? && |StepFrom(st, k).value.units| == |st.units|
      && Runs(StepFrom(st, k).value, k + 1, fin)
  }

  /** A successful outer loop from unit k runs step by step to its result. */
  lemma {:induction false} RemainingRuns(st: RecScope, k: nat)
    requires Idle(st) && k <= |st.units| && AnalyzeRemaining(st, k).Ok?
    ensures Runs(st, k, AnalyzeRemaining(st, k).value)
    decreases |st.units| - k
  {
    if k < |st.units| {
      if st.units[k].state.NotAnalyzed? {
        AnalyzeUnitSound(st, k, st.units[k].def.name);
        var st1 := AnalyzeUnit(st, k, st.units[k].def.name).value;
        RemainingRuns(st1, k + 1);
        assert StepFrom(st, k) == Some(st1);
      } else {
        RemainingRuns(st, k + 1);
        assert StepFrom(st, k) == Some(st);
      }
    }
  }

  /** The scope analyze leaves behind: registration as it was, every unit
      analysed, and the invariant. */
  lemma AnalyzeRun(target: Target, constants: set<Name>, firstSlot: nat, entries: seq<Entry>)
    returns (st0: RecScope, st2: RecScope)
    requires Analyze(target, constants, firstSlot, entries).Ok?
    ensures Analyze(target, constants, firstSlot, entries).value
      == Executable(st2.actions, if target.Module? then Some(SlotMap(st2.dict)) else None)
    ensures Registered(st0, SlotBase(target, firstSlot)) && UnitDefs(st0.units) == Definitions(entries)
    ensures st2.dict == st0.dict
  {
    st0 := RegisterPhase(target, constants, firstSlot, entries);
    RegisteredWellFormed(st0, SlotBase(target, firstSlot));
    RegisteredInv(st0, SlotBase(target, firstSlot));
    st2 := AnalyzePhases(st0);
  }

  /** add_to_scope on the empty scope. */
  lemma RegisterPhase(target: Target, constants: set<Name>, firstSlot: nat, entries: seq<Entry>)
    returns (st0: RecScope)
    requires AddToScope(EmptyScope(target, constants, firstSlot), entries).Ok?
    ensures st0 == AddToScope(EmptyScope(target, constants, firstSlot), entries).value
    ensures Registered(st0, SlotBase(target, firstSlot)) && UnitDefs(st0.units) == Definitions(entries)
  {
    EmptyRegistered(target, constants, firstSlot);
    AddToScopeRegistered(EmptyScope(target, constants, firstSlot), SlotBase(target, firstSlot), entries);
    st0 := AddToScope(EmptyScope(target, constants, firstSlot), entries).value;
    assert UnitDefs([]) + Definitions(entries) == Definitions(entries);
  }

  /** The statements, then every unit not yet reached. */
  lemma AnalyzePhases(st0: RecScope) returns (st2: RecScope)
    requires Idle(st0) && WellFormed(st0) && AnalyzeActions(st0, 0).Ok?
    requires AnalyzeRemaining(AnalyzeActions(st0, 0).value, 0).Ok?
    ensures st2 == AnalyzeRemaining(AnalyzeActions(st0, 0).value, 0).value
    ensures Idle(st2) && Evolves(st0, st2)
    ensures forall k :: 0 <= k < |st2.units| ==> st2.units[k].state.Analyzed?
    ensures forall k :: 0 <= k < |st0.units| ==> st0.units[k].slot in Written(st2.actions)
  {
    AnalyzeActionsSound(st0, 0);
    var st1 := AnalyzeActions(st0, 0).value;
    st2 := RemainingPhase(st1);
    EvolvesTrans(st0, st1, st2);
    AllWritten(st0, st2);
  }

  lemma RemainingPhase(st1: RecScope) returns (st2: RecScope)
    requires Idle(st1) && AnalyzeRemaining(st1, 0).Ok?
    ensures st2 == AnalyzeRemaining(st1, 0).value
    ensures Idle(st2) && Evolves(st1, st2)
    ensures forall k :: 0 <= k < |st2.units| ==> st2.units[k].state.Analyzed?
  {
    st2 := AnalyzeRemaining(st1, 0).value;
    AnalyzeRemainingSound(st1, 0);
    AllAnalyzed(st2);
  }

  /** Outside any analysis nothing is in progress, so a unit that is not
      fresh is analysed. */
  lemma AllAnalyzed(st: RecScope)
    requires Idle(st)
    requires forall j :: 0 <= j < |st.units| ==> !st.units[j].state.NotAnalyzed?
    ensures forall k :: 0 <= k < |st.units| ==> st.units[k].state.Analyzed?
  {
    forall k | 0 <= k < |st.units|
      ensures st.units[k].state.Analyzed?
    {
      assert k !in st.sccStack;
    }
  }

  /** Once every unit is analysed, every registered slot has been written. */
  lemma AllWritten(st0: RecScope, st2: RecScope)
    requires WrittenOk(st2) && UnitsEvolve(st0.units, st2.units)
    requires forall k :: 0 <= k < |st2.units| ==> st2.units[k].state.Analyzed?
    ensures forall k :: 0 <= k < |st0.units| ==> st0.units[k].slot in Written(st2.actions)
  {
  }

  /** Every definition of the compound is initialised exactly once, no
      action reads a slot before it is initialised, and no other slot is
      written: one write per definition. */
  lemma AnalyzeInitialisesAll(target: Target, constants: set<Name>, firstSlot: nat, entries: seq<Entry>)
    requires Analyze(target, constants, firstSlot, entries).Ok?
    ensures var exe := Analyze(target, constants, firstSlot, entries).value;
      && DependencyOrdered(exe.actions)
      && WrittenOnce(exe.actions)
      && (forall s :: SlotBase(target, firstSlot) <= s < SlotBase(target, firstSlot) + |DefNames(entries)| ==>
           s in Written(exe.actions))
      && (forall s :: s in Written(exe.actions) ==>
           SlotBase(target, firstSlot) <= s < SlotBase(target, firstSlot) + |DefNames(entries)|)
      && |WriteList(exe.actions)| == |DefNames(entries)|
  {
    var base := SlotBase(target, firstSlot);
    var st0 := RegisterPhase(target, constants, firstSlot, entries);
    RegisteredWellFormed(st0, base);
    var st2 := PhasesWrite(st0, base);
  }

  /** Analysis from the registered scope writes only the registered slots. */
  lemma PhasesWithin(st0: RecScope, base: nat)
    requires Registered(st0, base) && WellFormed(st0) && AnalyzeActions(st0, 0).Ok?
    requires AnalyzeRemaining(AnalyzeActions(st0, 0).value, 0).Ok?
    ensures WritesWithin(AnalyzeRemaining(AnalyzeActions(st0, 0).value, 0).value.actions, base, base + |st0.units|)
  {
    var hi := base + |st0.units|;
    assert WriteList(st0.actions) == [];
    assert Within(st0, base, hi);
    ActionsWithin(st0, 0, base, hi);
    RemainingWithin(AnalyzeActions(st0, 0).value, 0, base, hi);
  }

  /** The statements and then the units, analysed from the registered scope,
      write every registered slot once and in dependency order. */
  lemma PhasesWrite(st0: RecScope, base: nat) returns (st2: RecScope)
    requires Registered(st0, base) && WellFormed(st0) && AnalyzeActions(st0, 0).Ok?
    requires AnalyzeRemaining(AnalyzeActions(st0, 0).value, 0).Ok?
    ensures st2 == AnalyzeRemaining(AnalyzeActions(st0, 0).value, 0).value
    ensures DependencyOrdered(st2.actions) && WrittenOnce(st2.actions)
    ensures forall s :: base <= s < base + |st0.units| ==> s in Written(st2.actions)
    ensures WritesWithin(st2.actions, base, base + |st0.units|)
    ensures |WriteList(st2.actions)| == |st0.units|
  {
    st2 := PhasesWritten(st0, base);
    forall s | base <= s < base + |st0.units|
      ensures s in Written(st2.actions)
    {
      assert st0.units[s - base].slot == s;
    }
    PhasesWithin(st0, base);
    WriteCount(st2.actions, base, |st0.units|);
  }

  lemma PhasesWritten(st0: RecScope, base: nat) returns (st2: RecScope)
    requires Registered(st0, base) && WellFormed(st0) && AnalyzeActions(st0, 0).Ok?
    requires AnalyzeRemaining(AnalyzeActions(st0, 0).value, 0).Ok?
    ensures st2 == AnalyzeRemaining(AnalyzeActions(st0, 0).value, 0).value
    ensures DependencyOrdered(st2.actions) && WrittenOnce(st2.actions)
    ensures forall k :: 0 <= k < |st0.units| ==> st0.units[k].slot in Written(st2.actions)
  {
    RegisteredInv(st0, base);
    st2 := AnalyzePhases(st0);
  }

  /** A module publishes every name it defines, bound to field 0, 1, 2, ...
      in source order; a frame publishes nothing. */
  lemma AnalyzeModuleDictionary(target: Target, constants: set<Name>, firstSlot: nat, entries: seq<Entry>)
    requires Analyze(target, constants, firstSlot, entries).Ok?
    ensures var exe := Analyze(target, constants, firstSlot, entries).value;
      && (target.Frame? ==> exe.moduleDictionary.None?)
      && (target.Module? ==>
            && exe.moduleDictionary.Some?
            && exe.moduleDictionary.value.Keys == set n | n in DefNames(entries)
            && forall k :: 0 <= k < |DefNames(entries)| ==>
                 DefNames(entries)[k] in exe.moduleDictionary.value
                 && exe.moduleDictionary.value[DefNames(entries)[k]] == k)
  {
    var st0, st2 := AnalyzeRun(target, constants, firstSlot, entries);
    if target.Module? {
      ModuleSlots(st0, entries);
    }
  }

  lemma ModuleSlots(st0: RecScope, entries: seq<Entry>)
    requires Registered(st0, 0) && UnitDefs(st0.units) == Definitions(entries)
    ensures SlotMap(st0.dict).Keys == set n | n in DefNames(entries)
    ensures forall k :: 0 <= k < |DefNames(entries)| ==>
      DefNames(entries)[k] in SlotMap(st0.dict) && SlotMap(st0.dict)[DefNames(entries)[k]] == k
  {
    var names := DefNames(entries);
    forall k | 0 <= k < |names|
      ensures names[k] in st0.dict && st0.dict[names[k]].slot == k
    {
      assert UnitDefs(st0.units)[k].name == names[k];
    }
    forall n | n in st0.dict
      ensures n in names
    {
      var k := st0.dict[n].unit;
      assert UnitDefs(st0.units)[k].name == names[k];
    }
  }
}
