/** Sequential_Scope: strict left-to-right visibility.

    Each definition is analysed as soon as it is registered (begin_unit),
    before its own name is bound (add_binding), and its setter is appended
    right after (end_unit).  A right-hand side therefore sees the names of
    earlier definitions only; its own name and later names resolve in the
    enclosing scopes. */
module SequentialScope {
  import opened Syntax
  import opened Meanings

  datatype SeqScope = SeqScope(
    target: Target,
    constants: set<Name>,       // names the enclosing scopes bind to constants
    dict: map<Name, nat>,       // name -> slot
    nextSlot: nat,              // frame slot counter (make_slot)
    actions: seq<Action>)

  function EmptyScope(target: Target, constants: set<Name>, firstSlot: nat): SeqScope
  {
    SeqScope(target, constants, map[], firstSlot, [])
  }

  /** Sequential_Scope::single_lookup: a bound name yields a reference to its
      slot; an unbound name is left to the enclosing scopes. */
  function SingleLookup(sc: SeqScope, name: Name): (m: Option<Expr>)
    ensures m.Some? <==> name in sc.dict
    ensures m.Some? ==> m.value.ReadsSlot() && m.value.slot == sc.dict[name] && m.value.name == name
    ensures m.Some? ==> (m.value.IndirectRef? <==> sc.target.Module?)
  {
    if name in sc.dict then Some(SlotRef(sc.target, name, sc.dict[name])) else None
  }

  /** Lookup through the environment chain: this scope first, then outward. */
  function Lookup(sc: SeqScope, name: Name): Expr
  {
    match SingleLookup(sc, name)
    case Some(e) => e
    case None => OuterExpr(sc.constants, name)
  }

  /** The external analyser, abstracted: resolve each looked-up name in order. */
  function Resolve(sc: SeqScope, refs: seq<Name>): (body: seq<Expr>)
    ensures |body| == |refs|
    ensures forall k :: 0 <= k < |refs| ==> body[k].name == refs[k]
    ensures forall k :: 0 <= k < |refs| ==> (body[k].ReadsSlot() <==> refs[k] in sc.dict)
    ensures forall k :: 0 <= k < |refs| && refs[k] in sc.dict ==> body[k].ReadsSlot() && body[k].slot == sc.dict[refs[k]]
  {
    seq(|refs|, k requires 0 <= k < |refs| => Lookup(sc, refs[k]))
  }

  /** Sequential_Scope::begin_unit: analyse the definition at once, in the
      scope as it stands, and hand back its analysed right-hand side. */
  function BeginUnit(sc: SeqScope, def: Definition): seq<Expr>
  {
    Resolve(sc, def.refs)
  }

  /** Sequential_Scope::add_binding. */
  function AddBinding(sc: SeqScope, name: Name): (r: Result<(SeqScope, nat)>)
    ensures r.Err? <==> name in sc.dict
    ensures r.Err? ==> r.error == MultiplyDefined(name)
    ensures r.Ok? ==> var (sc', slot) := r.value;
      && sc'.dict == sc.dict[name := slot]
      && sc'.actions == sc.actions && sc'.target == sc.target && sc'.constants == sc.constants
      && (sc.target.Module? ==> slot == |sc.dict| && sc'.nextSlot == sc.nextSlot)
      && (sc.target.Frame? ==> slot == sc.nextSlot && sc'.nextSlot == sc.nextSlot + 1)
  {
    if name in sc.dict then Err(MultiplyDefined(name))
    else
      var slot := if sc.target.Module? then |sc.dict| else sc.nextSlot;
      var next := if sc.target.Module? then sc.nextSlot else sc.nextSlot + 1;
      Ok((sc.(dict := sc.dict[name := slot], nextSlot := next), slot))
  }

  /** Sequential_Scope::end_unit: append the definition's setter.  Only data
      definitions have a standalone setter. */
  function EndUnit(sc: SeqScope, def: Definition, slot: nat, definiens: seq<Expr>): (sc': SeqScope)
    requires def.IsData()
    ensures |sc'.actions| == |sc.actions| + 1 && sc'.actions[..|sc.actions|] == sc.actions
    ensures Writes(sc'.actions[|sc.actions|]) == [slot]
    ensures Reads(sc'.actions[|sc.actions|]) == ExprReads(definiens)
    ensures sc'.actions[|sc.actions|].ModuleDataSetter? <==> sc.target.Module?
    ensures sc'.dict == sc.dict && sc'.nextSlot == sc.nextSlot
  {
    sc.(actions := sc.actions + [MakeDataSetter(sc.target, slot, def.name, definiens)])
  }

  /** Data_Definition::add_to_scope: begin_unit, add_binding, end_unit. */
  function AddDefinition(sc: SeqScope, def: Definition): Result<SeqScope>
    requires def.IsData()
  {
    var definiens := BeginUnit(sc, def);
    var bound :- AddBinding(sc, def.name);
    Ok(EndUnit(bound.0, def, bound.1, definiens))
  }

  /** Sequential_Scope::add_action: a bare statement is analysed at once. */
  function AddAction(sc: SeqScope, refs: seq<Name>): SeqScope
  {
    sc.(actions := sc.actions + [Statement(Resolve(sc, refs))])
  }

  ghost predicate AllData(entries: seq<Entry>)
  {
    forall k :: 0 <= k < |entries| && entries[k].DefEntry? ==> entries[k].def.IsData()
  }

  /** One entry of a compound: a definition adds itself, a bare statement
      becomes an action. */
  function AddEntry(sc: SeqScope, e: Entry): Result<SeqScope>
    requires e.DefEntry? ==> e.def.IsData()
  {
    match e
    case ActionEntry(refs) => Ok(AddAction(sc, refs))
    case DefEntry(def) => AddDefinition(sc, def)
  }

  /** Compound_Definition_Base::add_to_scope, in source order. */
  function AddToScope(sc: SeqScope, entries: seq<Entry>): Result<SeqScope>
    requires AllData(entries)
    decreases |entries|
  {
    if |entries| == 0 then Ok(sc)
    else
      var sc1 :- AddEntry(sc, entries[0]);
      AddToScope(sc1, entries[1..])
  }

  /** Sequential_Scope::analyze. */
  function Analyze(target: Target, constants: set<Name>, firstSlot: nat, entries: seq<Entry>): Result<Executable>
    requires AllData(entries)
  {
    var sc :- AddToScope(EmptyScope(target, constants, firstSlot), entries);
    Ok(Executable(sc.actions, if target.Module? then Some(sc.dict) else None))
  }

  // ---------------------------------------------------------------------
  // Properties

  /** Slots are handed out consecutively from `lo`: every bound name holds a
      slot below `lo + |dict|`, and no two names share one. */
  ghost predicate SlotsFrom(dict: map<Name, nat>, lo: nat)
  {
    && (forall n :: n in dict ==> lo <= dict[n] < lo + |dict|)
    && (forall a, b :: a in dict && b in dict && a != b ==> dict[a] != dict[b])
  }

  /** The actions so far write the slots lo, lo+1, ..., lo+count-1, once
      each and in order, and every action reads only slots written before it. */
  ghost predicate ActionsFrom(actions: seq<Action>, lo: nat, count: nat)
  {
    && |WriteList(actions)| == count
    && Consecutive(WriteList(actions), lo)
    && DependencyOrdered(actions)
  }

  /** What holds of a sequential scope between definitions. */
  ghost predicate Inv(sc: SeqScope, lo: nat)
  {
    && SlotsFrom(sc.dict, lo)
    && ActionsFrom(sc.actions, lo, |sc.dict|)
    && (sc.target.Module? ==> lo == 0)
    && (sc.target.Frame? ==> sc.nextSlot == lo + |sc.dict|)
  }

  lemma EmptyInv(target: Target, constants: set<Name>, firstSlot: nat)
    ensures Inv(EmptyScope(target, constants, firstSlot), SlotBase(target, firstSlot))
  {
  }

  lemma ResolveReadsWritten(sc: SeqScope, lo: nat, refs: seq<Name>)
    requires Inv(sc, lo)
    ensures ExprReads(Resolve(sc, refs)) <= Written(sc.actions)
  {
    var body := Resolve(sc, refs);
    forall s | s in ExprReads(body)
      ensures s in Written(sc.actions)
    {
      var e :| e in body && e.ReadsSlot() && e.slot == s;
      var k :| 0 <= k < |body| && body[k] == e;
      assert s == sc.dict[refs[k]];
      assert WriteList(sc.actions)[s - lo] == s;
    }
  }

  /** Registering a name: a name already bound fails with "multiply
      defined"; otherwise the name gets the next slot, which no other name
      holds (for a module, the number of names bound so far). */
  lemma AddBindingFresh(sc: SeqScope, lo: nat, name: Name)
    requires Inv(sc, lo)
    ensures AddBinding(sc, name).Err? <==> name in sc.dict
    ensures AddBinding(sc, name).Ok? ==> var slot := AddBinding(sc, name).value.1;
      && slot == lo + |sc.dict|
      && (forall n :: n in sc.dict ==> sc.dict[n] != slot)
      && (sc.target.Module? ==> slot == |sc.dict|)
  {
  }

  /** A data definition sees exactly the names bound before it: a looked-up
      name reads a slot of this scope iff it was bound earlier; the
      definition's own name is not among them, so a self-reference resolves
      outward.  The setter is the one action appended. */
  lemma DefinitionSeesEarlierNames(sc: SeqScope, def: Definition)
    requires def.IsData()
    requires AddDefinition(sc, def).Ok?
    ensures var sc' := AddDefinition(sc, def).value;
      && def.name !in sc.dict
      && sc'.dict.Keys == sc.dict.Keys + {def.name}
      && |sc'.actions| == |sc.actions| + 1
      && sc'.actions[..|sc.actions|] == sc.actions
      && var a := sc'.actions[|sc.actions|];
         && Writes(a) == [sc'.dict[def.name]]
         && (a.DataSetter? || a.ModuleDataSetter?)
         && |a.definiens| == |def.refs|
         && (forall k :: 0 <= k < |def.refs| ==> (a.definiens[k].ReadsSlot() <==> def.refs[k] in sc.dict))
         && (forall k :: 0 <= k < |def.refs| && def.refs[k] == def.name ==> !a.definiens[k].ReadsSlot())
  {
    var sc' := AddDefinition(sc, def).value;
    assert sc'.actions[..|sc.actions|] == sc.actions;
  }

  lemma AddDefinitionInv(sc: SeqScope, lo: nat, def: Definition)
    requires Inv(sc, lo) && def.IsData()
    ensures AddDefinition(sc, def).Ok? ==> Inv(AddDefinition(sc, def).value, lo)
  {
    if AddDefinition(sc, def).Ok? {
      var definiens := BeginUnit(sc, def);
      ResolveReadsWritten(sc, lo, def.refs);
      var slot := lo + |sc.dict|;
      var next := if sc.target.Module? then sc.nextSlot else sc.nextSlot + 1;
      var a := MakeDataSetter(sc.target, slot, def.name, definiens);
      assert AddDefinition(sc, def).value == sc.(dict := sc.dict[def.name := slot], nextSlot := next, actions := sc.actions + [a]);
      SetterKeepsInv(sc, lo, def.name, a);
    }
  }

  lemma SetterKeepsInv(sc: SeqScope, lo: nat, name: Name, a: Action)
    requires Inv(sc, lo) && name !in sc.dict
    requires Writes(a) == [lo + |sc.dict|] && Reads(a) <= Written(sc.actions)
    ensures var next := if sc.target.Module? then sc.nextSlot else sc.nextSlot + 1;
      var d := sc.dict[name := lo + |sc.dict|];
      var sc' := sc.(dict := d, nextSlot := next, actions := sc.actions + [a]);
      Inv(sc', lo)
  {
    var d := sc.dict[name := lo + |sc.dict|];
    assert |d| == |sc.dict| + 1;
    BindFreshKeepsSlots(sc.dict, lo, name);
    AppendSetterKeepsActions(sc.actions, lo, a);
  }

  lemma BindFreshKeepsSlots(dict: map<Name, nat>, lo: nat, name: Name)
    requires name !in dict && SlotsFrom(dict, lo)
    ensures SlotsFrom(dict[name := lo + |dict|], lo)
  {
  }

  lemma AppendSetterKeepsActions(actions: seq<Action>, lo: nat, a: Action)
    requires ActionsFrom(actions, lo, |WriteList(actions)|)
    requires Writes(a) == [lo + |WriteList(actions)|] && Reads(a) <= Written(actions)
    ensures ActionsFrom(actions + [a], lo, |WriteList(actions)| + 1)
  {
    AppendKeepsOrder(actions, a);
    WriteListAppend(actions, a);
    ConsecutiveSnoc(WriteList(actions), lo);
  }

  lemma AddActionInv(sc: SeqScope, lo: nat, refs: seq<Name>)
    requires Inv(sc, lo)
    ensures Inv(AddAction(sc, refs), lo)
  {
    var a := Statement(Resolve(sc, refs));
    ResolveReadsWritten(sc, lo, refs);
    AppendKeepsOrder(sc.actions, a);
    WriteListAppend(sc.actions, a);
  }

  lemma AddEntryInv(sc: SeqScope, lo: nat, e: Entry)
    requires Inv(sc, lo) && (e.DefEntry? ==> e.def.IsData())
    requires AddEntry(sc, e).Ok?
    ensures Inv(AddEntry(sc, e).value, lo)
  {
    match e {
      case ActionEntry(refs) => AddActionInv(sc, lo, refs);
      case DefEntry(def) => AddDefinitionInv(sc, lo, def);
    }
  }

  lemma {:induction false} AddToScopeInv(sc: SeqScope, lo: nat, entries: seq<Entry>)
    requires Inv(sc, lo) && AllData(entries)
    requires AddToScope(sc, entries).Ok?
    ensures Inv(AddToScope(sc, entries).value, lo)
    decreases |entries|
  {
    if |entries| > 0 {
      AddEntryInv(sc, lo, entries[0]);
      assert AllData(entries[1..]);
      AddToScopeInv(AddEntry(sc, entries[0]).value, lo, entries[1..]);
    }
  }

  /** After registering a compound, its scope binds exactly the names the
      compound defines (on top of those bound before). */
  lemma {:induction false} AddToScopeKeys(sc: SeqScope, entries: seq<Entry>)
    requires AllData(entries)
    requires AddToScope(sc, entries).Ok?
    ensures AddToScope(sc, entries).value.dict.Keys == sc.dict.Keys + set n | n in DefNames(entries)
    decreases |entries|
  {
    if |entries| > 0 {
      var sc1 := AddEntry(sc, entries[0]).value;
      assert sc1.dict.Keys == sc.dict.Keys + (if entries[0].DefEntry? then {entries[0].def.name} else {});
      assert AllData(entries[1..]);
      AddToScopeKeys(sc1, entries[1..]);
    }
  }

  /** `d0` with `names` bound in turn, each to the next slot lo + |dict|. */
  ghost function BindAll(d0: map<Name, nat>, names: seq<Name>, lo: nat): map<Name, nat>
    decreases |names|
  {
    if |names| == 0 then d0 else BindAll(d0[names[0] := lo + |d0|], names[1..], lo)
  }

  /** Registration binds the defined names in source order, each to the
      next slot. */
  lemma {:induction false} AddToScopeDict(sc: SeqScope, lo: nat, entries: seq<Entry>)
    requires NextFree(sc, lo) && AllData(entries)
    requires AddToScope(sc, entries).Ok?
    ensures AddToScope(sc, entries).value.dict == BindAll(sc.dict, DefNames(entries), lo)
    decreases |entries|
  {
    if |entries| == 0 {
      assert DefNames(entries) == [];
    } else {
      var e := entries[0];
      var sc1 := AddEntry(sc, e).value;
      EntryBinds(sc, lo, e);
      assert AllData(entries[1..]);
      AddToScopeDict(sc1, lo, entries[1..]);
      assert AddToScope(sc, entries) == AddToScope(sc1, entries[1..]);
      if e.DefEntry? {
        assert DefNames(entries) == [e.def.name] + DefNames(entries[1..]);
        assert DefNames(entries)[1..] == DefNames(entries[1..]);
      } else {
        assert DefNames(entries) == DefNames(entries[1..]);
      }
    }
  }

  /** Binding distinct fresh names hands the k-th one lo + |d0| + k. */
  lemma {:induction false} BindAllSlots(d0: map<Name, nat>, names: seq<Name>, lo: nat)
    requires NoDuplicates(names) && forall k :: 0 <= k < |names| ==> names[k] !in d0
    ensures BindsFrom(d0, BindAll(d0, names, lo), names, lo)
    decreases |names|
  {
    if |names| > 0 {
      var n := names[0];
      var d1 := d0[n := lo + |d0|];
      var rest := names[1..];
      assert forall k :: 0 <= k < |rest| ==> rest[k] == names[k + 1];
      assert NoDuplicates(rest);
      assert forall k :: 0 <= k < |rest| ==> rest[k] !in d1;
      BindAllSlots(d1, rest, lo);
      assert names == [n] + rest;
      SlotsCons(d0, d1, BindAll(d1, rest, lo), n, lo, rest);
    }
  }

  /** `d` extends `d0` with `names`, the k-th bound to lo + |d0| + k. */
  ghost predicate BindsFrom(d0: map<Name, nat>, d: map<Name, nat>, names: seq<Name>, lo: nat)
  {
    && |d| == |d0| + |names|
    && (forall x :: x in d0 ==> x in d && d[x] == d0[x])
    && (forall k :: 0 <= k < |names| ==> names[k] in d && d[names[k]] == lo + |d0| + k)
  }

  lemma SlotsCons(d0: map<Name, nat>, d1: map<Name, nat>, d: map<Name, nat>, n: Name, lo: nat, rest: seq<Name>)
    requires n !in d0 && d1 == d0[n := lo + |d0|]
    requires BindsFrom(d1, d, rest, lo)
    ensures BindsFrom(d0, d, [n] + rest, lo)
  {
    var names := [n] + rest;
    assert |d1| == |d0| + 1;
    forall k | 0 <= k < |names|
      ensures names[k] in d && d[names[k]] == lo + |d0| + k
    {
      if k > 0 {
        assert names[k] == rest[k - 1];
      }
    }
  }

  /** The next slot handed out is lo + |dict|. */
  ghost predicate NextFree(sc: SeqScope, lo: nat)
  {
    && (sc.target.Module? ==> lo == 0)
    && (sc.target.Frame? ==> sc.nextSlot == lo + |sc.dict|)
  }

  /** One entry: a statement binds nothing, a definition binds its name to
      the next slot. */
  lemma EntryBinds(sc: SeqScope, lo: nat, e: Entry)
    requires NextFree(sc, lo) && (e.DefEntry? ==> e.def.IsData()) && AddEntry(sc, e).Ok?
    ensures NextFree(AddEntry(sc, e).value, lo)
    ensures e.ActionEntry? ==> AddEntry(sc, e).value.dict == sc.dict
    ensures e.DefEntry? ==> e.def.name !in sc.dict && AddEntry(sc, e).value.dict == sc.dict[e.def.name := lo + |sc.dict|]
  {
  }

  /** Sequential_Scope::analyze: every action reads only slots written by
      earlier actions; the k-th definition's slot, base + k, is the k-th
      slot written, and each is written once; a module publishes exactly
      the defined names, the k-th one at field k. */
  lemma AnalyzeOrdered(target: Target, constants: set<Name>, firstSlot: nat, entries: seq<Entry>)
    requires AllData(entries)
    requires Analyze(target, constants, firstSlot, entries).Ok?
    ensures var exe := Analyze(target, constants, firstSlot, entries).value;
      && DependencyOrdered(exe.actions)
      && WrittenOnce(exe.actions)
      && |WriteList(exe.actions)| == |DefNames(entries)|
      && (forall k :: 0 <= k < |DefNames(entries)| ==> WriteList(exe.actions)[k] == SlotBase(target, firstSlot) + k)
      && (target.Module? <==> exe.moduleDictionary.Some?)
      && (exe.moduleDictionary.Some? ==> exe.moduleDictionary.value.Keys == set n | n in DefNames(entries))
      && (exe.moduleDictionary.Some? ==> forall k :: 0 <= k < |DefNames(entries)| ==>
            exe.moduleDictionary.value[DefNames(entries)[k]] == k)
  {
    var lo := SlotBase(target, firstSlot);
    var sc0 := EmptyScope(target, constants, firstSlot);
    EmptyInv(target, constants, firstSlot);
    AddToScopeInv(sc0, lo, entries);
    AddToScopeKeys(sc0, entries);
    AddToScopeDict(sc0, lo, entries);
    AddToScopeRejectsDuplicates(sc0, entries);
    BindAllSlots(map[], DefNames(entries), lo);
    var sc := AddToScope(sc0, entries).value;
    assert Consecutive(WriteList(sc.actions), lo);
  }

  /** Some name would be bound twice: it repeats among `names`, or the
      scope binds it already. */
  ghost predicate Clash(keys: set<Name>, names: seq<Name>)
  {
    !NoDuplicates(names) || exists k :: 0 <= k < |names| && names[k] in keys
  }

  lemma ClashCons(keys: set<Name>, n: Name, rest: seq<Name>)
    requires n !in keys
    ensures Clash(keys, [n] + rest) <==> Clash(keys + {n}, rest)
  {
    var names := [n] + rest;
    if Clash(keys + {n}, rest) {
      if !NoDuplicates(rest) {
        var a, b :| 0 <= a < b < |rest| && rest[a] == rest[b];
        assert names[a + 1] == names[b + 1];
      } else {
        var k :| 0 <= k < |rest| && rest[k] in keys + {n};
        if rest[k] == n {
          assert names[0] == names[k + 1];
        } else {
          assert names[k + 1] in keys;
        }
      }
    }
    if Clash(keys, names) {
      if !NoDuplicates(names) {
        var a, b :| 0 <= a < b < |names| && names[a] == names[b];
        if a == 0 {
          assert rest[b - 1] in keys + {n};
        } else {
          assert rest[a - 1] == rest[b - 1];
        }
      } else {
        var k :| 0 <= k < |names| && names[k] in keys;
        assert k > 0 && rest[k - 1] in keys + {n};
      }
    }
  }

  /** Registration of a compound fails, with "multiply defined", exactly
      when one of its names repeats or is bound already. */
  lemma {:induction false} AddToScopeRejectsDuplicates(sc: SeqScope, entries: seq<Entry>)
    requires AllData(entries)
    ensures AddToScope(sc, entries).Err? <==> Clash(sc.dict.Keys, DefNames(entries))
    ensures AddToScope(sc, entries).Err? ==> AddToScope(sc, entries).error.MultiplyDefined?
    decreases |entries|
  {
    if |entries| > 0 {
      var e := entries[0];
      var rest := DefNames(entries[1..]);
      assert AllData(entries[1..]);
      match e {
        case ActionEntry(refs) =>
          assert DefNames(entries) == rest;
          AddToScopeRejectsDuplicates(AddAction(sc, refs), entries[1..]);
        case DefEntry(def) =>
          assert DefNames(entries) == [def.name] + rest;
          if def.name in sc.dict {
            assert DefNames(entries)[0] in sc.dict.Keys;
          } else {
            var sc1 := AddDefinition(sc, def).value;
            assert sc1.dict.Keys == sc.dict.Keys + {def.name};
            AddToScopeRejectsDuplicates(sc1, entries[1..]);
            ClashCons(sc.dict.Keys, def.name, rest);
          }
      }
    }
  }
}
