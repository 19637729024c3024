# Curv definitions: name binding and initialisation order

A model, in Dafny, of how the Curv compiler binds the names of a compound
definition (`a = 1; b = a + 1;` or the body of a module) and decides the
order in which their slots are initialised.

Curv has two kinds of scope:

- **Sequential scope.** Definitions are seen left to right. Each definition
  is analysed at once (`begin_unit`), then its name is bound (`add_binding`),
  then its setter is appended (`end_unit`). A right-hand side therefore sees
  only the names bound before it.
- **Recursive scope.** Every definition sees every other. Registration
  (`begin_unit`, `add_binding`) only records units and bindings. Analysis is
  lazy: looking up a name analyses the unit that defines it first
  (`analyze_unit`).
  - Tarjan's strongly-connected-components algorithm runs over these
    lookups. It is driven by the `ord` and `lowlink` of each unit, an SCC
    stack and an analysis stack.
  - It emits one initialisation action per component, in dependency order:
    a data setter for a lone data definition, and one function setter for
    a group of mutually recursive functions (`make_function_setter`).
  - It rejects recursion through a data definition.
  - Inside a function, `Function_Environ::single_lookup` records every
    non-constant meaning the function uses as a nonlocal (a capture).

The model is state-passing and functional. Each scope is a value, and each
operation returns `Ok(newScope)` or `Err(error)`.

Three abstractions:

- **The expression analyser.** It is represented by the ordered list of
  names a right-hand side (or statement) looks up: `Definition.refs` and
  `ActionEntry.refs`. Resolving a right-hand side means looking those names
  up in order, threading the scope through the lookups.
- **Outer scopes.** A name the compound does not bind resolves to an
  enclosing scope. There it is either a constant (the `constants` set) or
  a non-constant meaning.
- **Module or frame.** A `Target` is either `Frame` (slots come from
  `make_slot`, starting at `firstSlot`) or `Module(moduleSlot)` (slots are
  field indices 0, 1, 2, …). This replaces the source's `module_slot_`
  sentinel -1.

Files:

| file | contents |
|---|---|
| `syntax.dfy` | definitions, compound entries, errors, `Result`/`Option` |
| `meanings.dfy` | meanings (`Let_Ref`, `Indirect_Strict_Ref`, `Symbolic_Ref`, constants), actions (setters), slot reads and writes, dependency order |
| `sequential.dfy` | `Sequential_Scope` and its properties |
| `scope_state.dfy` | the recursive scope's state: units, bindings, the two stacks, the nonlocals map |
| `function_setter.dfy` | `make_function_setter` |
| `recursive_scope.dfy` | `Recursive_Scope`: registration, `analyze_unit`, the lookups, `analyze` |
| `recursive_invariant.dfy` | the invariant of Tarjan's algorithm, and the relation one lookup establishes between scope states |
| `recursive_steps.dfy` | the invariant is preserved by discovery, lowering a lowlink, recording a capture and emitting a component |
| `first_visit.dfy` | the first visit of a unit, root and non-root |
| `soundness.dfy` | the mutual induction over `analyze_unit` and the lookups |
| `recursive_analysis.dfy` | registration and the whole of `Recursive_Scope::analyze` |
| `recursive_slots.dfy` | every slot the analysis writes belongs to one of the compound's definitions; counting the writes |
| `recursive_references.dfy` | every setter accounts for the names its definitions use |
| `action_order.dfy` | facts about any initialisation order: one writer per slot, readers after writers, mutually recursive functions sharing a setter |
| `recursive_properties.dfy` | idempotence, rejection of data recursion, captures, no self-reads |
| `recursive_examples.dfy` | small compounds evaluated step by step through the model, for any two distinct names |

## Model

| member | source | states |
|---|---|---|
| SequentialScope.SingleLookup | curv/definition.cc:79-92 | A name yields a meaning iff the scope binds it. That meaning reads exactly the name's slot, and it is an indirect (module) reference iff the target is a module. |
| SequentialScope.AddBinding | curv/definition.cc:104-114 | Fails with "multiply defined" (naming the name) iff the name is already bound. Otherwise it binds the name and leaves the actions unchanged. For a module the slot is the dictionary size; for a frame it is the next frame slot. |
| SequentialScope.EndUnit | curv/definition.cc:115-121 | Appends exactly one action after the earlier ones, which stay as they are. That action writes exactly the definition's slot, reads exactly what its right-hand side reads, and is a module setter iff the target is a module. The bindings and the next frame slot are unchanged. |
| SequentialScope.AddBindingFresh | curv/definition.cc:104-114 | Under the scope invariant, a successful binding gets slot lo plus the number of names bound. No other name holds that slot, and for a module it is the number of names bound so far. Registration fails iff the name is already bound. |
| SequentialScope.DefinitionSeesEarlierNames | curv/definition.cc:16-22 | Analysing a data definition is followed by binding its name and appending its setter. Each looked-up name reads a slot of this scope iff it was bound earlier. The definition's own name never reads a slot, so it resolves outward. The new setter writes exactly the new name's slot. |
| SequentialScope.AddToScopeKeys | curv/definition.cc:59-68 | After add_to_scope the scope binds exactly the names bound before plus the names the compound defines. |
| SequentialScope.AnalyzeOrdered | curv/definition.cc:70-78 | The executable's actions read only slots written by earlier actions. Slots are written once each, consecutively from the scope's first slot and in source order. A module dictionary is produced iff the target is a module, and its keys are the defined names. |
| SequentialScope.AddToScopeRejectsDuplicates | curv/definition.cc:59-68 | add_to_scope fails iff a defined name repeats or is already bound. Every such failure is "multiply defined". |
| Meanings.MakeDataSetter | curv/definition.cc:44-52 | The setter writes exactly the definition's slot and reads exactly the slots its right-hand side reads. It is a module setter (carrying the module slot) iff the target is a module. |
| ScopeState.RecordNonlocal | curv/definition.cc:305-306 | Storing `nonlocals_[name]`: afterwards the entry for the name is the new meaning, the entries for other names are kept, and nothing else is added. |
| ScopeState.RecordNonlocalDistinct | curv/definition.cc:305-306 | Recording a capture never makes a name occur twice. The nonlocals grow by one entry iff the name was not captured yet. |
| RecursiveScope.AddBinding | curv/definition.cc:322-332 | Fails with "multiply defined" iff the name is already bound. Otherwise it binds the name to its slot and unit number. For a module the slot is the dictionary size; for a frame it is the next frame slot. |
| RecursiveScope.ScopeExpr | curv/definition.cc:284-298 | The meaning of a name reads a slot iff the scope binds it, and then it reads that binding's slot. It is a constant iff the name is unbound here and an enclosing scope binds it to a constant. |
| RecursiveScope.PropagateLowlink | curv/definition.cc:174-183 | After a first visit, fails with "illegal recursive reference" at the reference iff there is a referrer, the unit is data, and the unit's lowlink is below the referrer's. |
| RecursiveScope.IndexOf | curv/definition.cc:218-221 | The search for the root on the SCC stack returns the first position holding it, or the stack size. |
| RecursiveScope.EmitData | curv/definition.cc:205-213 | A data root pops the top of the SCC stack and becomes analysed. It appends one setter, which writes its slot and reads what its right-hand side reads. |
| RecursiveScope.EmitGroup | curv/definition.cc:214-233 | A function root pops everything from itself upward off the SCC stack and marks exactly those units analysed. It appends one action writing their slots. It fails iff one of them is a data definition. |
| RecursiveScope.AnalyzeUnit | curv/definition.cc:155-235 | On success the unit is no longer unanalysed, and the scope has only evolved: bindings, registration and the analysis stack are kept, and units are only started or finished, never reset. |
| RecursiveScope.SingleLookup | curv/definition.cc:284-298 | A bound name has its unit analysed (no longer unanalysed afterwards) and yields the slot reference of its binding. An unbound name changes nothing and yields no meaning. |
| RecursiveScope.CaptureLookup | curv/definition.cc:299-308 | Inside a function, a constant meaning is returned as it is. Every other meaning is an operation here: it is recorded among the function's nonlocals under its name and replaced by a symbolic reference to that name. |
| RecursiveScope.EnvLookup | curv/definition.cc:284-308 | A lookup yields the name's meaning in its environment. At scope level that is a slot reference when the scope binds the name and the enclosing meaning otherwise. Inside a function, constants stay as they are and every other meaning becomes a symbolic reference. The scope only evolves. |
| RecursiveScope.Resolve | curv/definition.cc:30-43 | Analysing a right-hand side yields one meaning per looked-up name, in order. Each is the meaning the name had when the analysis began, so analysing the units it reaches changes no earlier name's meaning. The scope only evolves. |
| RecursiveScope.AnalyzeRemaining | curv/definition.cc:133-136 | After the loop over units, no unit from the starting index onward is still unanalysed. |
| FunctionSetter.MakeFunctionSetter | curv/definition.cc:237-274 | Fails with "recursive data definition", naming the first data member, iff the group contains a data definition. Otherwise: nonlocal slots 0..n-1 are the n members bound to their lambdas; every captured name of every member is numbered; names after n are captures of the group and not member names; no name is numbered twice. |
| FunctionSetter.SetterReadsCaptures | curv/definition.cc:258-265 | Every slot-reading nonlocal of a function setter is the capture of some member, under a name that is not a member's. |
| RecursiveInvariant.InProgressHasReferrer | curv/definition.cc:192 | While any unit is in progress the analysis stack is not empty. This discharges the assertion before `analysis_stack_.back()`. |
| RecursiveSteps.LowerParentSound | curv/definition.cc:193-194 | Lowering the referrer's lowlink to the ord of a function on the SCC stack keeps the invariant. Only the referrer's lowlink changes, and it does not rise. |
| RecursiveSteps.EmitOrdered | curv/definition.cc:205-233 | Emitting a component whose setter reads only initialised slots keeps the actions dependency ordered, with every slot written once. |
| FirstVisit.RootKeepsParent | curv/definition.cc:174-183 | A unit that is the root of its component never lowers its referrer's lowlink, so a data root is never rejected there. |
| FirstVisit.DataRootAlone | curv/definition.cc:205-210 | A data root is the only unit above the SCC stack as it was before its visit, which is the assertion at line 209. |
| FirstVisit.RootIndex | curv/definition.cc:218-221 | The search for the root finds it where it was pushed, just above the SCC stack as it was before its visit. |
| FirstVisit.FirstVisitSound | curv/definition.cc:158-184 | Suppose the lookups of a right-hand side kept the invariant. Then the whole first visit keeps it, and the unit reached is safe for its referrer (or analysed, at top level). |
| Soundness.AnalyzeUnitSound | curv/definition.cc:155-235 | Every successful analyze_unit keeps Tarjan's invariant. The unit it reached is one its referrer may read, or analysed when there is no referrer. |
| Soundness.ResolveSound | curv/definition.cc:284-310 | Every sequence of lookups keeps the invariant, and every slot reference it yields designates a reached unit. |
| RecursiveAnalysis.AddToScopeRegistered | curv/definition.cc:59-68 | Registration records the compound's definitions as units in source order, with slots base, base+1, …. It keeps the statements for later, in source order. |
| RecursiveAnalysis.AddToScopeRejectsDuplicates | curv/definition.cc:322-332 | Registration fails iff the names already bound plus the compound's names contain a repeat. The error is "multiply defined" and names one of the compound's names. |
| RecursiveAnalysis.AnalyzeInitialisesAll | curv/definition.cc:123-144 | Every action reads only slots written by earlier actions, and every slot is written once. The slots written are exactly the defined names' slots: each of them is written, no other slot is, so there is one write per definition. |
| RecursiveAnalysis.AnalyzeModuleDictionary | curv/definition.cc:137-143 | A frame publishes no dictionary. A module publishes exactly the defined names, the k-th defined name bound to field k. |
| RecursiveProperties.AnalyzeUnitIdempotent | curv/definition.cc:202-203 | After a top-level analyze_unit the unit is analysed, and analysing it again through any reference changes nothing. |
| RecursiveProperties.InProgressDataRejected | curv/definition.cc:185-191 | Reaching a data unit whose analysis is in progress fails with "illegal recursive reference" at the reference. |
| RecursiveProperties.DataSelfReferenceRejected | curv/definition.cc:158-191 | A data definition whose right-hand side first looks up its own name fails with "illegal recursive reference". |
| RecursiveProperties.ConstantNotCaptured | curv/definition.cc:302-304 | A name an enclosing scope binds to a constant is returned as that constant, and the scope is unchanged: nothing is captured. |
| RecursiveProperties.CapturedOnce | curv/definition.cc:305-307 | A non-constant meaning is recorded under its name, and it is the only capture with that name. |
| RecursiveReferences.AnalyzeFollowsReferences | curv/definition.cc:146-150 | The action that initialises a definition accounts for every definition of the compound its right-hand side names. It reads that definition's slot or, when the first definition is a function, initialises it in the same setter. |
| RecursiveProperties.DataSelfReferenceFails | curv/definition.cc:185-191 | A compound fails whenever one of its data definitions names itself anywhere in its right-hand side. |
| RecursiveProperties.AnalyzeOrderedFollowing | curv/definition.cc:123-150 | The actions of a successful analysis form an initialisation order. Each slot has one writer, every reader comes after the writer, each setter accounts for the names its definitions use, and every definition's slot is written. |
| ActionOrder.MutualRecursionShared | curv/definition.cc:152-154 | In such an initialisation order, two functions that name each other are initialised by the same action, the single setter of their group. Longer cycles are ActionOrder.CycleShared. |
| ActionOrder.CycleShared | curv/definition.cc:152-154 | In such an initialisation order, the action that initialises one member of a closed chain of references initialises every member: a mutually recursive group of any size gets one setter. |
| ActionOrder.CycleAllFunctions | curv/definition.cc:146-154 | In such an initialisation order, every definition on a closed chain of references (each naming the next, the last naming the first) is a function. |
| RecursiveProperties.DataCycleFails | curv/definition.cc:146-191 | A compound fails whenever a closed chain of references among its definitions passes through a data definition, however long the chain. |
| RecursiveProperties.MutualDataFails | curv/definition.cc:185-191 | A compound fails whenever a data definition and another definition name each other, as in `x = y; y = x;`. |
| RecursiveProperties.FunctionCycleShared | curv/definition.cc:152-154 | In a successful analysis, the action that writes the slot of one member of a closed chain of references (such as `f() = g(); g() = h(); h() = f();`) writes the slots of all its members. |
| RecursiveProperties.AnalyzeNoSelfReads | curv/definition.cc:123-144 | No emitted action reads a slot it writes itself, so no data definition is initialised from its own value. |
| RecursiveExamples.FunctionThenDataCycle | curv/definition.cc:276-282 | For any two distinct names, `f() = x; x = f();` fails with "recursive data definition" naming `x`. |
| RecursiveExamples.DataThenFunctionCycle | curv/definition.cc:185-191 | For any two distinct names, `x = f(); f() = x;` fails with "illegal recursive reference" at `x`. |
| RecursiveExamples.ForwardReferenceOrdered | curv/definition.cc:146-150 | For any two distinct names, `a = b; b = 1;` initialises `b` (slot 1) before `a` (slot 0), and `a` reads slot 1. |
| RecursiveExamples.MutualFunctionsOneSetter | curv/definition.cc:214-233 | For any two distinct names, `f() = g(); g() = f();` succeeds with a single function setter. It writes slots 0 and 1, reads no slot, and captures each function's reference to the other as a symbolic reference. |

## Left out

- Runtime objects are not modelled: values, lambdas, `Function_Setter` contents beyond names, slots and expressions, and source phrases and locations in errors.
- `frame_maxslots_` bookkeeping (lines 75, 137, 170) is not modelled: it concerns frame size, not binding or order.
- The expression analyser (`analyze_op`, `Data_Definition::analyze`, `Function_Definition::analyze`) is reduced to the ordered list of names a phrase looks up. Nested scopes inside a right-hand side are not modelled.
- The assertion at line 41 (an analysed function is a lambda) is implied by the abstraction, since a function's body is whatever it looks up.
- `Function_Definition::make_setter` (line 56) is `assert(0)`. The sequential model instead admits only data definitions (`AllData`), as a sequential scope never holds a function definition.
- The assertion at line 73 and line 126 about the definition kind is replaced by the choice of the sequential or recursive `Analyze`.
- The nonlocals of a unit are a `std::map`, which `make_function_setter` iterates in key order. The model keeps them in first-capture order, so the numbering of captures after the members may differ from the source's. Which captures are numbered, and that each is numbered once, agrees.
- `analyze_unit` at top level is passed a null identifier. The model passes the unit's own name instead. The identifier is used only for errors raised while a referrer exists, so it is never used at top level.
- RecursiveScope.AnalyzeUnit: when a unit in progress is reached with an empty analysis stack, the source asserts (line 192), while the model returns the scope unchanged. RecursiveInvariant.InProgressHasReferrer shows that case cannot arise under the invariant.
- The assertion at line 230 (`u->scc_ord_ == unit.scc_ord_`) is not stated. Line 161 gives every unit its own `scc_ord_`, so for every component of two or more units the first unit popped is not the root and the assertion as written fails. The model states what the loop does instead: the popped units are exactly those from the root upward on the SCC stack (RecursiveScope.EmitGroup).
- A failed registration reports only the error, so "the dictionary is unchanged on a multiply-defined name" is not a separate statement. The `Err` result carries no state, and the exception in the source abandons the scope.
- Line 309 returns a meaning that is neither a constant nor an operation unchanged. The model has no such meaning: every non-constant meaning of an enclosing scope is an operation (`OuterRef`), so line 309 is never reached.
- `make_function_setter`'s choice of source phrase (line 240) concerns error locations only.

## Notes

- Lines 276-282 comment that for `f() = x; x = f();` the wanted error is "illegal recursive reference". The code as written reports "recursive data definition" from `make_function_setter`, and the model follows the code (RecursiveExamples.FunctionThenDataCycle). With the definitions in the other order the code reports "illegal recursive reference" (RecursiveExamples.DataThenFunctionCycle).
