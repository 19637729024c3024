/** What analysis produces: resolved references and initialisation actions.

    Runtime objects are reduced to the slot numbers and names they carry.
    A slot is a frame offset when the scope's target is a frame, and a field
    index of the module being built when the target is a module. */
module Meanings {
  import opened Syntax

  /** Whether the bindings of a scope live in the current frame or in the
      fields of a module whose base is held in `moduleSlot`. */
  datatype Target = Frame | Module(moduleSlot: nat)

  /** The first slot a fresh scope hands out: module fields count from 0,
      frame slots continue the enclosing frame. */
  function SlotBase(target: Target, firstSlot: nat): nat
  {
    if target.Module? then 0 else firstSlot
  }

  /** A resolved name. */
  datatype Expr =
    | LetRef(name: Name, slot: nat)                          // frame slot, read directly
    | IndirectRef(name: Name, moduleSlot: nat, slot: nat)    // module field, read through the module
    | Constant(name: Name)                                   // compile-time constant of an enclosing scope
    | OuterRef(name: Name)                                   // non-constant binding of an enclosing scope
    | SymbolicRef(name: Name)                                // nonlocal of a function, wired by its group
    | LambdaConstant(name: Name)                             // the lambda of a function of a group
  {
    /** Does evaluating this reference read a slot of the scope being analysed? */
    predicate ReadsSlot() { LetRef? || IndirectRef? }
  }

  /** One function of a group setter: the slot it initialises and its lambda. */
  datatype Member = Member(slot: nat, name: Name, lambda: seq<Expr>)

  /** An initialisation action of the scope's executable. */
  datatype Action =
    | DataSetter(slot: nat, name: Name, definiens: seq<Expr>)
    | ModuleDataSetter(moduleSlot: nat, slot: nat, name: Name, definiens: seq<Expr>)
    | FunctionSetter(target: Target, nonlocalNames: seq<Name>, nonlocalExprs: seq<Expr>, members: seq<Member>)
    | Statement(body: seq<Expr>)

  /** The product of analysing a scope: its initialisation actions, in
      execution order, and for a module target the published name-to-field
      dictionary. */
  datatype Executable = Executable(actions: seq<Action>, moduleDictionary: Option<map<Name, nat>>)

  /** The reference a scope hands out for one of its own bindings. */
  function SlotRef(target: Target, name: Name, slot: nat): (e: Expr)
    ensures e.ReadsSlot() && e.slot == slot && e.name == name
    ensures e.IndirectRef? <==> target.Module?
  {
    match target
    case Frame => LetRef(name, slot)
    case Module(ms) => IndirectRef(name, ms, slot)
  }

  /** The meaning of a name that is not bound by the scope: the enclosing
      scopes resolve it, either to a constant (inlined) or to an operation. */
  function OuterExpr(constants: set<Name>, name: Name): (e: Expr)
    ensures !e.ReadsSlot() && e.name == name
    ensures e.Constant? <==> name in constants
  {
    if name in constants then Constant(name) else OuterRef(name)
  }

  /** The slots of the scope a sequence of resolved references reads. */
  function ExprReads(es: seq<Expr>): set<nat>
  {
    set e | e in es && e.ReadsSlot() :: e.slot
  }

  /** The slots an action writes, in order. */
  function Writes(a: Action): seq<nat>
  {
    match a
    case DataSetter(s, _, _) => [s]
    case ModuleDataSetter(_, s, _, _) => [s]
    case FunctionSetter(_, _, _, ms) => MemberSlots(ms)
    case Statement(_) => []
  }

  function MemberSlots(ms: seq<Member>): (r: seq<nat>)
    ensures |r| == |ms|
    ensures forall k :: 0 <= k < |ms| ==> r[k] == ms[k].slot
  {
    if |ms| == 0 then [] else MemberSlots(ms[..|ms| - 1]) + [ms[|ms| - 1].slot]
  }

  /** The slots of the scope an action reads. */
  function Reads(a: Action): set<nat>
  {
    match a
    case DataSetter(_, _, d) => ExprReads(d)
    case ModuleDataSetter(_, _, _, d) => ExprReads(d)
    case FunctionSetter(_, _, nl, _) => ExprReads(nl)
    case Statement(b) => ExprReads(b)
  }

  /** Every slot written by a sequence of actions, in order (with repeats). */
  function WriteList(actions: seq<Action>): seq<nat>
  {
    if |actions| == 0 then [] else WriteList(actions[..|actions| - 1]) + Writes(actions[|actions| - 1])
  }

  function Written(actions: seq<Action>): set<nat>
  {
    set s | s in WriteList(actions)
  }

  /** No action reads a slot before an earlier action has written it. */
  ghost predicate DependencyOrdered(actions: seq<Action>)
    decreases |actions|
  {
    |actions| == 0 ||
    (DependencyOrdered(actions[..|actions| - 1]) && Reads(actions[|actions| - 1]) <= Written(actions[..|actions| - 1]))
  }

  /** No slot is written twice. */
  ghost predicate WrittenOnce(actions: seq<Action>)
  {
    var w := WriteList(actions);
    forall a, b :: 0 <= a < b < |w| ==> w[a] != w[b]
  }

  /** Data_Definition::make_setter: the setter of a data definition stores its
      value into its slot, through the module base when the target is a module. */
  function MakeDataSetter(target: Target, slot: nat, name: Name, definiens: seq<Expr>): (a: Action)
    ensures Writes(a) == [slot]
    ensures Reads(a) == ExprReads(definiens)
    ensures a.ModuleDataSetter? <==> target.Module?
    ensures target.Module? ==> a.moduleSlot == target.moduleSlot
  {
    match target
    case Module(ms) => ModuleDataSetter(ms, slot, name, definiens)
    case Frame => DataSetter(slot, name, definiens)
  }

  /** `w` lists the slots lo, lo+1, lo+2, ... in order. */
  ghost predicate Consecutive(w: seq<nat>, lo: nat)
  {
    forall k :: 0 <= k < |w| ==> w[k] == lo + k
  }

  lemma ConsecutiveSnoc(w: seq<nat>, lo: nat)
    requires Consecutive(w, lo)
    ensures Consecutive(w + [lo + |w|], lo)
  {
  }

  lemma WriteListAppend(actions: seq<Action>, a: Action)
    ensures WriteList(actions + [a]) == WriteList(actions) + Writes(a)
    ensures Written(actions + [a]) == Written(actions) + set s | s in Writes(a)
  {
    assert (actions + [a])[..|actions|] == actions;
  }

  /** Appending an action whose reads are already written keeps the order. */
  lemma AppendKeepsOrder(actions: seq<Action>, a: Action)
    requires DependencyOrdered(actions)
    requires Reads(a) <= Written(actions)
    ensures DependencyOrdered(actions + [a])
  {
    assert (actions + [a])[..|actions|] == actions;
  }

  /** The ordering, stated action by action: the `p`-th action reads only
      slots written by the actions before it. */
  lemma {:induction false} DependencyOrderedAt(actions: seq<Action>, p: nat)
    requires DependencyOrdered(actions) && p < |actions|
    ensures Reads(actions[p]) <= Written(actions[..p])
    decreases |actions|
  {
    var init := actions[..|actions| - 1];
    if p < |actions| - 1 {
      DependencyOrderedAt(init, p);
      assert init[..p] == actions[..p];
    }
  }

  /** Appending an action that writes fresh, distinct slots keeps every slot written once. */
  lemma AppendKeepsWrittenOnce(actions: seq<Action>, a: Action)
    requires WrittenOnce(actions)
    requires forall s :: s in Writes(a) ==> s !in Written(actions)
    requires forall x, y :: 0 <= x < y < |Writes(a)| ==> Writes(a)[x] != Writes(a)[y]
    ensures WrittenOnce(actions + [a])
  {
    WriteListAppend(actions, a);
    var w := WriteList(actions);
    var v := Writes(a);
    forall x, y | 0 <= x < y < |w + v|
      ensures (w + v)[x] != (w + v)[y]
    {
      if y >= |w| && x < |w| {
        assert (w + v)[x] in Written(actions);
        assert (w + v)[y] == v[y - |w|];
      }
    }
  }
}
