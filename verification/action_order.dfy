/** Facts about an initialisation sequence as a list of actions: where each
    slot is written, that the writer of a slot comes before its readers, and
    what following the referenced names forces on mutually recursive
    functions. */
module ActionOrder {
  import opened Syntax
  import opened Meanings
  import opened RecursiveReferences

  lemma {:induction false} WriteListPrefix(actions: seq<Action>, p: nat)
    requires p <= |actions|
    ensures WriteList(actions[..p]) <= WriteList(actions)
    decreases |actions|
  {
    if p < |actions| {
      var init := actions[..|actions| - 1];
      WriteListPrefix(init, p);
      assert init[..p] == actions[..p];
    } else {
      assert actions[..p] == actions;
    }
  }

  /** In a sequence without repeats, the elements of two adjacent pieces
      of a prefix are apart. */
  lemma PiecesApart<T>(w: seq<T>, front: seq<T>, back: seq<T>, x: T)
    requires front + back <= w && NoDuplicates(w) && x in back
    ensures x !in front
  {
    var j :| 0 <= j < |back| && back[j] == x;
    forall i | 0 <= i < |front|
      ensures front[i] != x
    {
      assert w[i] == (front + back)[i] && w[|front| + j] == (front + back)[|front| + j];
    }
  }

  /** A slot an action writes was not written by any earlier action. */
  lemma WritesFresh(actions: seq<Action>, p: nat, s: nat)
    requires WrittenOnce(actions) && p < |actions| && s in Writes(actions[p])
    ensures s !in Written(actions[..p])
  {
    WritesPrefix(actions, p);
    assert NoDuplicates(WriteList(actions));
    PiecesApart(WriteList(actions), WriteList(actions[..p]), Writes(actions[p]), s);
  }

  /** The slots written before action `p`, then those `p` writes, begin the
      list of all writes. */
  lemma WritesPrefix(actions: seq<Action>, p: nat)
    requires p < |actions|
    ensures WriteList(actions[..p]) + Writes(actions[p]) <= WriteList(actions)
  {
    var q := actions[..p + 1];
    assert q[..p] == actions[..p];
    assert WriteList(q) == WriteList(actions[..p]) + Writes(actions[p]);
    WriteListPrefix(actions, p + 1);
  }

  /** In an executable whose actions are dependency ordered and write each
      slot once, no action reads a slot it writes itself. */
  lemma NoSelfReads(actions: seq<Action>, p: nat)
    requires DependencyOrdered(actions) && WrittenOnce(actions) && p < |actions|
    ensures forall s :: s in Writes(actions[p]) ==> s !in Reads(actions[p])
  {
    DependencyOrderedAt(actions, p);
    forall s | s in Writes(actions[p])
      ensures s !in Reads(actions[p])
    {
      WritesFresh(actions, p, s);
    }
  }

  /** Some action writes each slot in the list of writes. */
  lemma {:induction false} WrittenBy(actions: seq<Action>, s: nat) returns (q: nat)
    requires s in Written(actions)
    ensures q < |actions| && s in Writes(actions[q])
    decreases |actions|
  {
    var init := actions[..|actions| - 1];
    if s in Writes(actions[|actions| - 1]) {
      q := |actions| - 1;
    } else {
      assert s in WriteList(init);
      q := WrittenBy(init, s);
      assert init[q] == actions[q];
    }
  }

  /** When every slot is written once, one action writes a given slot. */
  lemma WriterUnique(actions: seq<Action>, a: nat, b: nat, s: nat)
    requires WrittenOnce(actions) && a < b < |actions|
    requires s in Writes(actions[a])
    ensures s !in Writes(actions[b])
  {
    var front := actions[..b];
    WritesPrefix(front, a);
    assert front[a] == actions[a];
    var w := WriteList(front[..a]);
    var x :| 0 <= x < |Writes(actions[a])| && Writes(actions[a])[x] == s;
    assert (w + Writes(actions[a]))[|w| + x] == s;
    assert WriteList(front)[|w| + x] == s;
    if s in Writes(actions[b]) {
      WritesFresh(actions, b, s);
    }
  }

  /** An action that reads a slot comes after the one that writes it. */
  lemma ReaderAfterWriter(actions: seq<Action>, p: nat, q: nat, s: nat)
    requires DependencyOrdered(actions) && WrittenOnce(actions) && p < |actions| && q < |actions|
    requires s in Reads(actions[p]) && s in Writes(actions[q])
    ensures q < p
  {
    DependencyOrderedAt(actions, p);
    var r := WrittenBy(actions[..p], s);
    assert actions[..p][r] == actions[r];
    if q < r {
      WriterUnique(actions, q, r, s);
    } else if r < q {
      WriterUnique(actions, r, q, s);
    }
  }

  /** In dependency order, a data definition's setter, which reads the
      slots of the definitions it names, cannot name the definition itself. */
  lemma NoDataSelfReference(actions: seq<Action>, defs: seq<Definition>, base: nat, j: nat)
    requires DependencyOrdered(actions) && WrittenOnce(actions) && FollowsReferences(actions, defs, base)
    requires j < |defs| && defs[j].IsData() && base + j in Written(actions)
    ensures defs[j].name !in defs[j].refs
  {
    if defs[j].name in defs[j].refs {
      var p := WrittenBy(actions, base + j);
      FollowsAt(actions, defs, base, p, j, j);
      NoSelfReads(actions, p);
      assert false;
    }
  }

  /** One instance of FollowsReferences. */
  lemma FollowsAt(actions: seq<Action>, defs: seq<Definition>, base: nat, p: nat, j: nat, m: nat)
    requires FollowsReferences(actions, defs, base)
    requires p < |actions| && j < |defs| && m < |defs|
    requires base + j in Writes(actions[p]) && defs[m].name in defs[j].refs
    ensures base + m in Reads(actions[p]) || (!defs[j].IsData() && base + m in Writes(actions[p]))
  {
    assert Follows(actions[p], defs, base, j);
  }

  /** No slot is written by two actions. */
  ghost predicate WritersUnique(actions: seq<Action>)
  {
    forall a, b, s :: 0 <= a < b < |actions| && s in Writes(actions[a]) ==> s !in Writes(actions[b])
  }

  /** An action that reads a slot comes after every action that writes it. */
  ghost predicate ReadersLater(actions: seq<Action>)
  {
    forall p, q, s :: 0 <= p < |actions| && 0 <= q < |actions| && s in Reads(actions[p]) && s in Writes(actions[q]) ==> q < p
  }

  /** Dependency order and single writes, restated per pair of actions. */
  lemma OrderFacts(actions: seq<Action>)
    requires DependencyOrdered(actions) && WrittenOnce(actions)
    ensures WritersUnique(actions) && ReadersLater(actions)
  {
    forall a, b, s | 0 <= a < b < |actions| && s in Writes(actions[a])
      ensures s !in Writes(actions[b])
    {
      WriterUnique(actions, a, b, s);
    }
    forall p, q, s | 0 <= p < |actions| && 0 <= q < |actions| && s in Reads(actions[p]) && s in Writes(actions[q])
      ensures q < p
    {
      ReaderAfterWriter(actions, p, q, s);
    }
  }

  /** The facts about an initialisation order that the properties below
      rest on: one writer per slot, every reader after the writer, every
      setter accounting for what its definitions name, and every
      definition's slot written. */
  ghost predicate OrderedFollowing(actions: seq<Action>, defs: seq<Definition>, base: nat)
  {
    && WritersUnique(actions) && ReadersLater(actions) && FollowsReferences(actions, defs, base)
    && forall s :: base <= s < base + |defs| ==> s in Written(actions)
  }

  /** Definitions `j` and `m` are functions that name each other. */
  ghost predicate MutualPair(defs: seq<Definition>, j: nat, m: nat)
  {
    && j < |defs| && m < |defs| && !defs[j].IsData() && !defs[m].IsData()
    && defs[m].name in defs[j].refs && defs[j].name in defs[m].refs
  }

  /** Two functions that name each other are initialised by the same
      action: whatever initialises either initialises both. */
  lemma MutualRecursionShared(actions: seq<Action>, defs: seq<Definition>, base: nat)
    requires OrderedFollowing(actions, defs, base)
    ensures forall j: nat, m: nat, p: nat ::
      MutualPair(defs, j, m) && p < |actions| && base + j in Writes(actions[p]) ==> base + m in Writes(actions[p])
  {
    forall j: nat, m: nat, p: nat | MutualPair(defs, j, m) && p < |actions| && base + j in Writes(actions[p])
      ensures base + m in Writes(actions[p])
    {
      SharedSetterOf(actions, defs, base, j, m, p);
    }
  }

  /** The setter `p` of `j` also initialises `m`. */
  lemma SharedSetterOf(actions: seq<Action>, defs: seq<Definition>, base: nat, j: nat, m: nat, p: nat)
    requires OrderedFollowing(actions, defs, base)
    requires MutualPair(defs, j, m) && p < |actions| && base + j in Writes(actions[p])
    ensures base + m in Writes(actions[p])
  {
    assert base + m in Written(actions);
    var q := WrittenBy(actions, base + m);
    SharedSetterAt(actions, defs, base, j, m, p, q);
  }

  /** The setter `p` of `j` and the setter `q` of `m` are one action. */
  lemma SharedSetterAt(actions: seq<Action>, defs: seq<Definition>, base: nat, j: nat, m: nat, p: nat, q: nat)
    requires WritersUnique(actions) && ReadersLater(actions) && FollowsReferences(actions, defs, base)
    requires MutualPair(defs, j, m)
    requires p < |actions| && base + j in Writes(actions[p])
    requires q < |actions| && base + m in Writes(actions[q])
    ensures base + m in Writes(actions[p])
  {
    FollowsAt(actions, defs, base, p, j, m);
    FollowsAt(actions, defs, base, q, m, j);
    var sj, sm := base + j, base + m;
    SharedAt(actions, p, q, sj, sm);
  }

  /** Action `p` writes `sj` and uses `sm`, action `q` writes `sm` and uses
      `sj`: neither can come first, so they are one action. */
  lemma SharedAt(actions: seq<Action>, p: nat, q: nat, sj: nat, sm: nat)
    requires WritersUnique(actions) && ReadersLater(actions) && p < |actions| && q < |actions|
    requires sj in Writes(actions[p]) && sm in Writes(actions[q])
    requires sm in Reads(actions[p]) || sm in Writes(actions[p])
    requires sj in Reads(actions[q]) || sj in Writes(actions[q])
    ensures sm in Writes(actions[p])
  {
  }

  /** `chain` lists definitions each of which names the next, the last
      naming the first: a cycle of references, direct or transitive. */
  ghost predicate Cycle(defs: seq<Definition>, chain: seq<nat>)
  {
    && |chain| > 0
    && (forall i :: 0 <= i < |chain| ==> chain[i] < |defs|)
    && (forall i :: 0 <= i < |chain| - 1 ==> defs[chain[i + 1]].name in defs[chain[i]].refs)
    && defs[chain[0]].name in defs[chain[|chain| - 1]].refs
  }

  /** When definition `j` names definition `m`, the setter of `m` comes no
      later than the setter of `j`, and strictly earlier when `j` is data. */
  lemma SetterNotLater(actions: seq<Action>, defs: seq<Definition>, base: nat, j: nat, m: nat, p: nat, q: nat)
    requires WritersUnique(actions) && ReadersLater(actions) && FollowsReferences(actions, defs, base)
    requires j < |defs| && m < |defs| && defs[m].name in defs[j].refs
    requires p < |actions| && base + j in Writes(actions[p])
    requires q < |actions| && base + m in Writes(actions[q])
    ensures q <= p && (defs[j].IsData() ==> q < p)
  {
    FollowsAt(actions, defs, base, p, j, m);
  }

  /** The setter of every member of a cycle, by position in the chain. */
  lemma {:induction false} ChainSetters(actions: seq<Action>, defs: seq<Definition>, base: nat, chain: seq<nat>)
    returns (ws: seq<nat>)
    requires forall i :: 0 <= i < |chain| ==> chain[i] < |defs|
    requires forall s :: base <= s < base + |defs| ==> s in Written(actions)
    ensures |ws| == |chain|
    ensures forall i :: 0 <= i < |chain| ==> ws[i] < |actions| && base + chain[i] in Writes(actions[ws[i]])
    decreases |chain|
  {
    if |chain| == 0 {
      ws := [];
    } else {
      var tail := chain[1..];
      assert forall i :: 0 <= i < |tail| ==> tail[i] == chain[i + 1];
      var rest := ChainSetters(actions, defs, base, tail);
      var w := WrittenBy(actions, base + chain[0]);
      ws := [w] + rest;
      forall i | 1 <= i < |chain|
        ensures ws[i] < |actions| && base + chain[i] in Writes(actions[ws[i]])
      {
        assert ws[i] == rest[i - 1] && chain[i] == tail[i - 1];
      }
    }
  }

  /** Along a chain whose setters never come later, the setter of a later
      member comes no later than that of an earlier one. */
  lemma {:induction false} SettersDescend(ws: seq<nat>, i: nat, k: nat)
    requires forall t :: 0 <= t < |ws| - 1 ==> ws[t + 1] <= ws[t]
    requires i <= k < |ws|
    ensures ws[k] <= ws[i]
    decreases k - i
  {
    if i < k {
      SettersDescend(ws, i + 1, k);
    }
  }

  /** In an initialisation order every member of a cycle of references is
      a function: a data definition in a cycle would need its setter to
      come strictly before itself. */
  lemma CycleAllFunctions(actions: seq<Action>, defs: seq<Definition>, base: nat, chain: seq<nat>)
    requires OrderedFollowing(actions, defs, base) && Cycle(defs, chain)
    ensures forall d :: 0 <= d < |chain| ==> !defs[chain[d]].IsData()
  {
    var ws := ChainSetters(actions, defs, base, chain);
    ChainLinks(actions, defs, base, chain, ws);
    var n := |chain|;
    SettersDescend(ws, 0, n - 1);
    forall d | 0 <= d < n
      ensures !defs[chain[d]].IsData()
    {
      if defs[chain[d]].IsData() && d < n - 1 {
        SettersDescend(ws, 0, d);
        SettersDescend(ws, d + 1, n - 1);
      }
    }
  }

  /** Along a cycle, each member's setter comes no later than the setter of
      the member before it, and strictly earlier after a data member; the
      last member names the first. */
  lemma ChainLinks(actions: seq<Action>, defs: seq<Definition>, base: nat, chain: seq<nat>, ws: seq<nat>)
    requires WritersUnique(actions) && ReadersLater(actions) && FollowsReferences(actions, defs, base)
    requires Cycle(defs, chain) && |ws| == |chain|
    requires forall i :: 0 <= i < |chain| ==> ws[i] < |actions| && base + chain[i] in Writes(actions[ws[i]])
    ensures forall t :: 0 <= t < |ws| - 1 ==> ws[t + 1] <= ws[t] && (defs[chain[t]].IsData() ==> ws[t + 1] < ws[t])
    ensures ws[0] <= ws[|ws| - 1] && (defs[chain[|ws| - 1]].IsData() ==> ws[0] < ws[|ws| - 1])
  {
    var n := |chain|;
    forall t | 0 <= t < n - 1
      ensures ws[t + 1] <= ws[t] && (defs[chain[t]].IsData() ==> ws[t + 1] < ws[t])
    {
      SetterNotLater(actions, defs, base, chain[t], chain[t + 1], ws[t], ws[t + 1]);
    }
    SetterNotLater(actions, defs, base, chain[n - 1], chain[0], ws[n - 1], ws[0]);
  }

  /** Action `a` writes the slot of every member of `chain`. */
  ghost predicate WritesChain(a: Action, base: nat, chain: seq<nat>)
  {
    forall d :: 0 <= d < |chain| ==> base + chain[d] in Writes(a)
  }

  /** In an initialisation order every member of a cycle of references is
      initialised by one action, the one that initialises its first member:
      a group of mutually recursive functions gets a single setter. */
  lemma CycleShared(actions: seq<Action>, defs: seq<Definition>, base: nat, chain: seq<nat>, p: nat)
    requires OrderedFollowing(actions, defs, base) && Cycle(defs, chain)
    requires p < |actions| && base + chain[0] in Writes(actions[p])
    ensures WritesChain(actions[p], base, chain)
  {
    var w := CycleSetter(actions, defs, base, chain);
    SameWriter(actions, p, w, base + chain[0]);
  }

  /** Some action writes the slots of every member of a cycle. */
  lemma CycleSetter(actions: seq<Action>, defs: seq<Definition>, base: nat, chain: seq<nat>) returns (w: nat)
    requires OrderedFollowing(actions, defs, base) && Cycle(defs, chain)
    ensures w < |actions| && WritesChain(actions[w], base, chain)
  {
    var ws := ChainSetters(actions, defs, base, chain);
    ChainLinks(actions, defs, base, chain, ws);
    SettersEqual(ws);
    w := ws[0];
    forall d | 0 <= d < |chain|
      ensures base + chain[d] in Writes(actions[w])
    {
      assert ws[d] == w;
    }
  }

  /** Setters that never come later along a chain, and whose last comes no
      earlier than its first, are all the same action. */
  lemma SettersEqual(ws: seq<nat>)
    requires |ws| > 0 && forall t :: 0 <= t < |ws| - 1 ==> ws[t + 1] <= ws[t]
    requires ws[0] <= ws[|ws| - 1]
    ensures forall d :: 0 <= d < |ws| ==> ws[d] == ws[0]
  {
    SettersDescend(ws, 0, |ws| - 1);
    forall d | 0 <= d < |ws|
      ensures ws[d] == ws[0]
    {
      SettersDescend(ws, 0, d);
      SettersDescend(ws, d, |ws| - 1);
    }
  }

  /** Two actions writing the same slot are one action. */
  lemma SameWriter(actions: seq<Action>, p: nat, q: nat, s: nat)
    requires WritersUnique(actions) && p < |actions| && q < |actions|
    requires s in Writes(actions[p]) && s in Writes(actions[q])
    ensures p == q
  {
  }
}
