/** The state of a Recursive_Scope: its dictionary, its units with their
    Tarjan bookkeeping, the two index stacks and the actions emitted so far. */
module ScopeState {
  import opened Syntax
  import opened Meanings

  /** Lifecycle of a unit: analysis starts on first lookup and the unit is
      analysed once its strongly connected component has been emitted. */
  datatype UnitState = NotAnalyzed | InProgress | Analyzed

  /** A free variable a function body captured, with its meaning in the
      enclosing scope. */
  datatype Capture = Capture(name: Name, expr: Expr)

  /** A unit wraps one definition: its slot, its state, its discovery number
      (`ord`), its lowlink, the nonlocals it captured and its analysed body. */
  datatype Unit = Unit(
    def: Definition,
    slot: nat,
    state: UnitState,
    ord: nat,
    lowlink: nat,
    nonlocals: seq<Capture>,
    body: seq<Expr>)

  /** A dictionary entry: the slot of a name and the index of its unit. */
  datatype Binding = Binding(slot: nat, unit: nat)

  datatype RecScope = RecScope(
    target: Target,
    constants: set<Name>,            // names the enclosing scopes bind to constants
    dict: map<Name, Binding>,
    units: seq<Unit>,
    nextSlot: nat,                   // frame slot counter (make_slot)
    actionPhrases: seq<seq<Name>>,   // bare statements, analysed after registration
    sccCount: nat,                   // next discovery number
    sccStack: seq<nat>,              // units of components not yet emitted
    analysisStack: seq<nat>,         // units whose analysis is under way
    actions: seq<Action>)

  /** The environment a right-hand side is analysed in: the scope itself
      (data definitions and statements) or the capture environment of one
      function unit. */
  datatype Env = ScopeEnv | CaptureEnv(owner: nat)

  function NewUnit(def: Definition): Unit
  {
    Unit(def, 0, NotAnalyzed, 0, 0, [], [])
  }

  /** The number of units whose analysis has not started. */
  function CountFresh(units: seq<Unit>): nat
    ensures CountFresh(units) <= |units|
  {
    if |units| == 0 then 0
    else CountFresh(units[..|units| - 1]) + (if units[|units| - 1].state.NotAnalyzed? then 1 else 0)
  }

  /** Starting the analysis of units never increases the number of fresh ones. */
  lemma {:induction false} CountFreshLe(us: seq<Unit>, vs: seq<Unit>)
    requires |us| == |vs|
    requires forall k :: 0 <= k < |us| && vs[k].state.NotAnalyzed? ==> us[k].state.NotAnalyzed?
    ensures CountFresh(vs) <= CountFresh(us)
    decreases |us|
  {
    if |us| > 0 {
      CountFreshLe(us[..|us| - 1], vs[..|vs| - 1]);
    }
  }

  /** ... and strictly decreases it when some fresh unit is started. */
  lemma {:induction false} CountFreshLt(us: seq<Unit>, vs: seq<Unit>, i: nat)
    requires |us| == |vs| && i < |us|
    requires forall k :: 0 <= k < |us| && vs[k].state.NotAnalyzed? ==> us[k].state.NotAnalyzed?
    requires us[i].state.NotAnalyzed? && !vs[i].state.NotAnalyzed?
    ensures CountFresh(vs) < CountFresh(us)
    decreases |us|
  {
    if i < |us| - 1 {
      CountFreshLt(us[..|us| - 1], vs[..|vs| - 1], i);
    } else {
      CountFreshLe(us[..|us| - 1], vs[..|vs| - 1]);
    }
  }

  /** Every unit index held by the scope designates a unit, and every
      unit's captures form a dictionary. */
  ghost predicate WellFormed(st: RecScope)
  {
    && (forall n :: n in st.dict ==> st.dict[n].unit < |st.units|)
    && (forall k :: 0 <= k < |st.sccStack| ==> st.sccStack[k] < |st.units|)
    && (forall k :: 0 <= k < |st.analysisStack| ==> st.analysisStack[k] < |st.units|)
    && (forall k :: 0 <= k < |st.units| ==> CapturesDistinct(st.units[k].nonlocals))
  }

  /** The registration of units is fixed and no unit returns to the fresh state. */
  ghost predicate UnitsEvolve(us: seq<Unit>, vs: seq<Unit>)
  {
    && |vs| == |us|
    && (forall k :: 0 <= k < |us| ==> vs[k].def == us[k].def && vs[k].slot == us[k].slot)
    && (forall k :: 0 <= k < |us| && vs[k].state.NotAnalyzed? ==> us[k].state.NotAnalyzed?)
  }

  /** What every analysis step preserves about the shape of the state: the
      bindings and registration are fixed, the analysis stack is restored
      and no unit goes back to the fresh state. */
  ghost predicate Evolves(st: RecScope, st': RecScope)
  {
    && st'.target == st.target
    && st'.constants == st.constants
    && st'.dict == st.dict
    && st'.nextSlot == st.nextSlot
    && st'.actionPhrases == st.actionPhrases
    && UnitsEvolve(st.units, st'.units)
    && st'.analysisStack == st.analysisStack
    && WellFormed(st')
  }

  lemma EvolvesTrans(a: RecScope, b: RecScope, c: RecScope)
    requires Evolves(a, b) && Evolves(b, c)
    ensures Evolves(a, c)
  {
  }

  /** A step that leaves no more fresh units than it found. */
  lemma EvolvesCount(a: RecScope, b: RecScope)
    requires UnitsEvolve(a.units, b.units)
    ensures CountFresh(b.units) <= CountFresh(a.units)
  {
    CountFreshLe(a.units, b.units);
  }

  /** No two captures share a name (the nonlocals form a dictionary). */
  ghost predicate CapturesDistinct(caps: seq<Capture>)
  {
    forall a, b :: 0 <= a < b < |caps| ==> caps[a].name != caps[b].name
  }

  /** Function_Environ::single_lookup stores `unit_.nonlocals_[name] = e`:
      the entry for `name` is set (replacing an earlier one), the others stay. */
  function RecordNonlocal(caps: seq<Capture>, name: Name, e: Expr): (r: seq<Capture>)
    requires CapturesDistinct(caps)
    ensures Capture(name, e) in r
    ensures forall c :: c in caps && c.name != name ==> c in r
    ensures forall c :: c in r ==> c == Capture(name, e) || (c in caps && c.name != name)
  {
    if |caps| == 0 then [Capture(name, e)]
    else if caps[0].name == name then [Capture(name, e)] + caps[1..]
    else [caps[0]] + RecordNonlocal(caps[1..], name, e)
  }

  /** Recording a capture never makes a name occur twice. */
  lemma {:induction false} RecordNonlocalDistinct(caps: seq<Capture>, name: Name, e: Expr)
    requires CapturesDistinct(caps)
    ensures CapturesDistinct(RecordNonlocal(caps, name, e))
    ensures |RecordNonlocal(caps, name, e)| == |caps| + (if exists c :: c in caps && c.name == name then 0 else 1)
  {
    if |caps| > 0 {
      if caps[0].name == name {
        var r := RecordNonlocal(caps, name, e);
        forall a, b | 0 <= a < b < |r|
          ensures r[a].name != r[b].name
        {
          assert r[b] == caps[b];
          if a > 0 {
            assert r[a] == caps[a];
          }
        }
      } else {
        RecordNonlocalDistinct(caps[1..], name, e);
        var r := RecordNonlocal(caps, name, e);
        var t := RecordNonlocal(caps[1..], name, e);
        assert r == [caps[0]] + t;
        forall b | 0 < b < |r|
          ensures r[0].name != r[b].name
        {
          assert r[b] in t;
          assert r[b] in caps[1..] || r[b].name == name;
        }
        assert (exists c :: c in caps && c.name == name) <==> (exists c :: c in caps[1..] && c.name == name) by {
          if exists c :: c in caps && c.name == name {
            var c :| c in caps && c.name == name;
            assert c != caps[0];
          }
        }
      }
    }
  }
}
