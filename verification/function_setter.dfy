/** Recursive_Scope::make_function_setter: one initialisation action for a
    strongly connected group of function definitions.

    The group's nonlocal dictionary numbers the members first (each bound to
    its own lambda, a constant) and then every captured name of every member
    that is not already numbered, each once, bound to the expression it
    captured.  A data definition inside a group cannot be initialised by it. */
module FunctionSetter {
  import opened Syntax
  import opened Meanings
  import opened ScopeState

  ghost predicate InUnits(units: seq<Unit>, group: seq<nat>)
  {
    forall k :: 0 <= k < |group| ==> group[k] < |units|
  }

  /** Some member of the group is a data definition. */
  ghost predicate HasData(units: seq<Unit>, group: seq<nat>)
    requires InUnits(units, group)
  {
    exists k :: 0 <= k < |group| && units[group[k]].def.IsData()
  }

  /** The position of the first data definition of the group, or |group|. */
  function FirstData(units: seq<Unit>, group: seq<nat>): (r: nat)
    requires InUnits(units, group)
    ensures r <= |group|
    ensures r < |group| ==> units[group[r]].def.IsData()
    ensures forall k :: 0 <= k < r ==> !units[group[k]].def.IsData()
  {
    if |group| == 0 then 0
    else if units[group[0]].def.IsData() then 0
    else 1 + FirstData(units, group[1..])
  }

  /** The names the members bind, in group order. */
  function MemberNames(units: seq<Unit>, group: seq<nat>): (r: seq<Name>)
    requires InUnits(units, group)
    ensures |r| == |group|
    ensures forall k :: 0 <= k < |group| ==> r[k] == units[group[k]].def.name
  {
    if |group| == 0 then [] else [units[group[0]].def.name] + MemberNames(units, group[1..])
  }

  /** The captures of all members, member by member. */
  function GroupCaptures(units: seq<Unit>, group: seq<nat>): (r: seq<Capture>)
    requires InUnits(units, group)
    ensures forall k, c :: 0 <= k < |group| && c in units[group[k]].nonlocals ==> c in r
    ensures forall c :: c in r ==> exists k :: 0 <= k < |group| && c in units[group[k]].nonlocals
  {
    if |group| == 0 then []
    else
      var rest := GroupCaptures(units, group[1..]);
      assert forall c :: c in rest ==> exists k :: 1 <= k < |group| && c in units[group[k]].nonlocals by {
        forall c | c in rest
          ensures exists k :: 1 <= k < |group| && c in units[group[k]].nonlocals
        {
          var j :| 0 <= j < |group[1..]| && c in units[group[1..][j]].nonlocals;
          assert c in units[group[j + 1]].nonlocals;
        }
      }
      units[group[0]].nonlocals + rest
  }

  /** The second loop of make_function_setter: append every capture whose
      name is not numbered yet, numbering it next. */
  function EnumerateCaptures(names: seq<Name>, exprs: seq<Expr>, caps: seq<Capture>): (r: (seq<Name>, seq<Expr>))
    requires |names| == |exprs|
    ensures |r.0| == |r.1| && names <= r.0 && exprs <= r.1
    ensures forall c :: c in caps ==> c.name in r.0
    ensures forall k :: |names| <= k < |r.0| ==> Capture(r.0[k], r.1[k]) in caps && r.0[k] !in names
    ensures NoDuplicates(names) ==> NoDuplicates(r.0)
    decreases |caps|
  {
    if |caps| == 0 then (names, exprs)
    else if caps[0].name in names then EnumerateCaptures(names, exprs, caps[1..])
    else
      var r := EnumerateCaptures(names + [caps[0].name], exprs + [caps[0].expr], caps[1..]);
      assert r.0[|names|] == caps[0].name;
      r
  }

  /** The members of the setter: each unit's slot, name and analysed body. */
  function GroupMembers(units: seq<Unit>, group: seq<nat>): (r: seq<Member>)
    requires InUnits(units, group)
    ensures |r| == |group|
    ensures forall k :: 0 <= k < |group| ==>
      r[k] == Member(units[group[k]].slot, units[group[k]].def.name, units[group[k]].body)
  {
    seq(|group|, k requires 0 <= k < |group| =>
      Member(units[group[k]].slot, units[group[k]].def.name, units[group[k]].body))
  }

  /** The lambda constants of the members, in group order. */
  function Lambdas(names: seq<Name>): (r: seq<Expr>)
    ensures |r| == |names| && forall k :: 0 <= k < |names| ==> r[k] == LambdaConstant(names[k])
  {
    seq(|names|, k requires 0 <= k < |names| => LambdaConstant(names[k]))
  }

  /** The nonlocal dictionary of the group: the members first, each bound
      to its lambda, then every captured name that is not yet numbered. */
  function Numbering(units: seq<Unit>, group: seq<nat>): (r: (seq<Name>, seq<Expr>))
    requires InUnits(units, group)
    ensures |r.0| == |r.1| >= |group|
    ensures forall k :: 0 <= k < |group| ==>
      r.0[k] == units[group[k]].def.name && r.1[k] == LambdaConstant(units[group[k]].def.name)
    ensures forall k, c :: 0 <= k < |group| && c in units[group[k]].nonlocals ==> c.name in r.0
    ensures forall k :: |group| <= k < |r.0| ==>
      && Capture(r.0[k], r.1[k]) in GroupCaptures(units, group)
      && r.0[k] !in MemberNames(units, group)
    ensures NoDuplicates(MemberNames(units, group)) ==> NoDuplicates(r.0)
  {
    var names := MemberNames(units, group);
    EnumerateCaptures(names, Lambdas(names), GroupCaptures(units, group))
  }

  /** The slots of the units of `group`, in order. */
  function GroupSlots(units: seq<Unit>, group: seq<nat>): (r: seq<nat>)
    requires InUnits(units, group)
    ensures |r| == |group| && forall k :: 0 <= k < |group| ==> r[k] == units[group[k]].slot
  {
    seq(|group|, k requires 0 <= k < |group| => units[group[k]].slot)
  }

  /** make_function_setter.  Fails with "recursive data definition" at the
      first data member; otherwise slots 0..n-1 of the nonlocal dictionary
      are the n members bound to their lambdas, then each captured name of
      the group that is not a member name, once, bound to its capture. */
  function MakeFunctionSetter(target: Target, units: seq<Unit>, group: seq<nat>): (r: Result<Action>)
    requires InUnits(units, group)
    ensures r.Err? <==> HasData(units, group)
    ensures r.Err? ==> r.error == RecursiveDataDefinition(units[group[FirstData(units, group)]].def.name)
    ensures r.Ok? ==> var a := r.value;
      && a.FunctionSetter? && a.target == target
      && |a.members| == |group| && |a.nonlocalNames| == |a.nonlocalExprs| >= |group|
      && (forall k :: 0 <= k < |group| ==>
            && a.members[k] == Member(units[group[k]].slot, units[group[k]].def.name, units[group[k]].body)
            && a.nonlocalNames[k] == units[group[k]].def.name
            && a.nonlocalExprs[k] == LambdaConstant(units[group[k]].def.name))
      && (forall k, c :: 0 <= k < |group| && c in units[group[k]].nonlocals ==> c.name in a.nonlocalNames)
      && (forall k :: |group| <= k < |a.nonlocalNames| ==>
            && Capture(a.nonlocalNames[k], a.nonlocalExprs[k]) in GroupCaptures(units, group)
            && a.nonlocalNames[k] !in MemberNames(units, group))
      && (NoDuplicates(MemberNames(units, group)) ==> NoDuplicates(a.nonlocalNames))
  {
    var d := FirstData(units, group);
    if d < |group| then Err(RecursiveDataDefinition(units[group[d]].def.name))
    else
      var nl := Numbering(units, group);
      Ok(FunctionSetter(target, nl.0, nl.1, GroupMembers(units, group)))
  }

  /** A function setter initialises exactly the slots of its group, in order. */
  lemma SetterWrites(target: Target, units: seq<Unit>, group: seq<nat>)
    requires InUnits(units, group) && MakeFunctionSetter(target, units, group).Ok?
    ensures Writes(MakeFunctionSetter(target, units, group).value) == GroupSlots(units, group)
  {
    assert MakeFunctionSetter(target, units, group).value.members == GroupMembers(units, group);
    MembersSlots(units, group);
  }

  lemma MembersSlots(units: seq<Unit>, group: seq<nat>)
    requires InUnits(units, group)
    ensures MemberSlots(GroupMembers(units, group)) == GroupSlots(units, group)
  {
    var w := MemberSlots(GroupMembers(units, group));
    assert forall k :: 0 <= k < |group| ==> w[k] == GroupSlots(units, group)[k];
  }

  /** Every nonlocal of the setter `a` that reads a slot is the capture of
      some member, under a name that is not a member's. */
  ghost predicate ReadsFromCaptures(units: seq<Unit>, group: seq<nat>, a: Action)
    requires InUnits(units, group)
  {
    && a.FunctionSetter?
    && forall e :: e in a.nonlocalExprs && e.ReadsSlot() ==>
         exists m, c :: 0 <= m < |group| && c in units[group[m]].nonlocals && c.expr == e && c.name !in MemberNames(units, group)
  }

  lemma SetterReadsCaptures(target: Target, units: seq<Unit>, group: seq<nat>, a: Action)
    requires InUnits(units, group) && MakeFunctionSetter(target, units, group) == Ok(a)
    ensures ReadsFromCaptures(units, group, a)
  {
    forall e | e in a.nonlocalExprs && e.ReadsSlot()
      ensures exists m, c :: 0 <= m < |group| && c in units[group[m]].nonlocals && c.expr == e && c.name !in MemberNames(units, group)
    {
      var k :| 0 <= k < |a.nonlocalExprs| && a.nonlocalExprs[k] == e;
      assert k >= |group|;
      var c := Capture(a.nonlocalNames[k], e);
      assert c in GroupCaptures(units, group);
      var m :| 0 <= m < |group| && c in units[group[m]].nonlocals;
    }
  }
}
