/**
 * `GlobalState` (tx-tools.js:40-67) together with the methods of `OutputClass`
 * that change outputs (tx-tools.js:122-324). Every output lives in the
 * registry `outputs` of the global state, so an `OutputClass` method becomes a
 * method of `GlobalState` that takes the output's registry position.
 */
module Ledger {
  import opened Outcomes
  import opened Facts
  import opened Requirements
  import opened OrderedMaps
  import opened Trees
  import opened Arena

  class GlobalState {
    /** `state.time`, the ledger clock. */
    var time: int
    /** The other entries of `state`: the facts made public (revealed secrets, items set by hand). */
    var facts: set<string>
    /** Every output created, in order of creation (tx-tools.js:44, 55). */
    var outputs: seq<Node>

    ghost predicate Valid()
      reads this
    {
      ValidArena(outputs)
    }

    /** A fresh ledger: time 0, no public facts, no outputs (tx-tools.js:41-45). */
    constructor ()
      ensures Valid() && time == 0 && facts == {} && outputs == []
    {
      time := 0;
      facts := {};
      outputs := [];
    }

    /** `set(stateItem)`: makes `stateItem` a public fact (tx-tools.js:60-62). */
    method Set(stateItem: string)
      modifies this
      ensures facts == old(facts) + {stateItem}
      ensures time == old(time) && outputs == old(outputs)
    {
      facts := facts + {stateItem};
    }

    /** `timePasses(amount)`: advances the clock by `amount`, which may be negative (tx-tools.js:64-66). */
    method TimePasses(amount: int)
      modifies this
      ensures time == old(time) + amount
      ensures facts == old(facts) && outputs == old(outputs)
    {
      time := time + amount;
    }

    /**
     * `Output(name, requirements, possibleOutputs)` (tx-tools.js:53-57,
     * 127-140): builds the children (an anonymous output for each bare
     * requirement list, the given outputs keyed by their names), copies them,
     * and registers the new output after everything it created. The new
     * output is unconfirmed, unspent, unsigned, and its children are copies of
     * what was passed, later names winning.
     */
    method Output(name: Option<string>, requirements: seq<string>, possibleOutputs: seq<PossibleOutput>)
      returns (id: nat)
      requires Valid() && ItemsIn(possibleOutputs, |outputs|)
      modifies this
      ensures Valid() && Grew(old(outputs), outputs)
      ensures time == old(time) && facts == old(facts)
      ensures |old(outputs)| <= id && id == |outputs| - 1
      ensures Abs(outputs, id) ==
        Tree(name, requirements, {}, None, false, CopyPairs(FromPairs(ItemTrees(old(outputs), possibleOutputs))))
      decreases TreeHeight(Forest(ItemTrees(outputs, possibleOutputs))), 3
    {
      ghost var a := outputs;
      var paths := CreateSpendPathMap(possibleOutputs);
      ghost var b := outputs;
      FromPairsNoHigher(ItemTrees(a, possibleOutputs));
      var copies := CopyOutputPaths(paths);
      ghost var c := outputs;
      var output := Node(name, requirements, {}, None, false, copies);
      OutputGrew(a, b, c, output);
      OutputTree(a, b, c, possibleOutputs, paths, output);
      outputs := outputs + [output];
      id := |outputs| - 1;
    }

    /**
     * `createSpendPathMap_` (tx-tools.js:303-315): one entry per element, in
     * order; an output is stored under its name, a requirement list becomes a
     * new anonymous output stored under "Anywhere".
     */
    method CreateSpendPathMap(possibleOutputs: seq<PossibleOutput>) returns (paths: Entries<nat>)
      requires Valid() && ItemsIn(possibleOutputs, |outputs|)
      modifies this
      ensures Valid() && Grew(old(outputs), outputs)
      ensures time == old(time) && facts == old(facts)
      ensures AllIn(paths, |outputs|) && DistinctKeys(paths)
      ensures AbsPairs(outputs, paths) == FromPairs(ItemTrees(old(outputs), possibleOutputs))
      decreases TreeHeight(Forest(ItemTrees(outputs, possibleOutputs))), 2
    {
      ghost var a := outputs;
      MappedStart(a, possibleOutputs);
      paths := [];
      var i := 0;
      while i < |possibleOutputs|
        invariant time == old(time) && facts == old(facts)
        invariant MappedUpTo(a, outputs, possibleOutputs, paths, i)
      {
        paths := MapPossibleOutput(a, possibleOutputs, paths, i);
        i := i + 1;
      }
      MappedAll(a, outputs, possibleOutputs, paths);
    }

    /**
     * The `forEach` callback of `createSpendPathMap_` (tx-tools.js:305-313) on
     * element `i`: an output is stored under its name, a requirement list
     * becomes a new anonymous output stored under "Anywhere".
     */
    method MapPossibleOutput(ghost a: seq<Node>, possibleOutputs: seq<PossibleOutput>, paths: Entries<nat>, i: nat)
      returns (result: Entries<nat>)
      requires MappedUpTo(a, outputs, possibleOutputs, paths, i) && i < |possibleOutputs|
      modifies this
      ensures time == old(time) && facts == old(facts)
      ensures MappedUpTo(a, outputs, possibleOutputs, result, i + 1)
      decreases TreeHeight(Forest(ItemTrees(a, possibleOutputs))), 1
    {
      match possibleOutputs[i] {
      case Existing(o) =>
        MappedExisting(a, outputs, possibleOutputs, paths, i);
        result := Put(paths, KeyOf(outputs[o].name), o);
      case Anywhere(reqs) =>
        ghost var before := outputs;
        AnywhereIsLower(a, outputs, possibleOutputs, i);
        var leaf := Output(None, reqs, []);
        MappedAnywhere(a, before, outputs, possibleOutputs, paths, i, leaf);
        result := Put(paths, "Anywhere", leaf);
      }
    }

    /**
     * `copyOutputPaths_` (tx-tools.js:295-301): a new object with the same
     * path names, each holding a fresh copy of the output it held.
     */
    method CopyOutputPaths(outputPaths: Entries<nat>) returns (result: Entries<nat>)
      requires Valid() && AllIn(outputPaths, |outputs|) && DistinctKeys(outputPaths)
      modifies this
      ensures Valid() && Grew(old(outputs), outputs)
      ensures time == old(time) && facts == old(facts)
      ensures |result| == |outputPaths| && DistinctKeys(result)
      ensures forall p :: 0 <= p < |result| ==>
        result[p].0 == outputPaths[p].0 && |old(outputs)| <= result[p].1 < |outputs|
      ensures AbsPairs(outputs, result) == CopyPairs(AbsPairs(old(outputs), outputPaths))
      decreases TreeHeight(Forest(AbsPairs(outputs, outputPaths))), 1
    {
      ghost var a := outputs;
      CopiedStart(a, outputPaths);
      result := [];
      var i := 0;
      while i < |outputPaths|
        invariant time == old(time) && facts == old(facts)
        invariant CopiedUpTo(a, outputs, outputPaths, result, i)
      {
        var path := outputPaths[i];
        ghost var before := outputs;
        CopyIsLower(a, outputs, outputPaths, i);
        var copy := Copy(path.1);
        CopiedStep(a, before, outputs, outputPaths, result, i, copy);
        result := Put(result, path.0, copy);
        i := i + 1;
      }
      CopiedAll(a, outputs, outputPaths, result);
    }

    /**
     * `copy()` (tx-tools.js:205-210): a new output with the same name,
     * requirements and signed state, unconfirmed and unspent, whose children
     * are copies of the original's children.
     */
    method Copy(output: nat) returns (path: nat)
      requires Valid() && output < |outputs|
      modifies this
      ensures Valid() && Grew(old(outputs), outputs)
      ensures time == old(time) && facts == old(facts)
      ensures |old(outputs)| <= path < |outputs|
      ensures Abs(outputs, path) == CopyTree(Abs(old(outputs), output))
      decreases TreeHeight(Abs(outputs, output)), 4
    {
      ghost var a := outputs;
      var original := outputs[output];
      CopySetup(a, output);
      var copies := CopyOutputPaths(original.possibleOutputs);
      ghost var b := outputs;
      var possibleOutputList := CreateSpendPathList(copies);
      CopyList(a, b, output, copies, possibleOutputList);
      path := Output(original.name, original.requirements, possibleOutputList);
      ghost var c := outputs;
      GrewTransitive(a, b, c);
      // `Object.assign(path.state, this.state)`
      CopyFinish(a, c, output, path);
      outputs := outputs[path := outputs[path].(state := outputs[path].state + original.state)];
    }

    /** `confirmed()` (tx-tools.js:144-147): the output's confirmation time becomes the current time. */
    method Confirmed(output: nat) returns (r: nat)
      requires Valid() && output < |outputs|
      modifies this
      ensures r == output
      ensures outputs == old(outputs)[output := old(outputs)[output].(confirmationTime := Some(old(time)))]
      ensures Valid() && time == old(time) && facts == old(facts)
    {
      AbsUpdateNode(outputs, output, outputs[output].(confirmationTime := Some(time)));
      outputs := outputs[output := outputs[output].(confirmationTime := Some(time))];
      r := output;
    }

    /**
     * `send(userState)` (tx-tools.js:149-192). An unconfirmed or spent output
     * is refused; otherwise the requirements are evaluated against the
     * sender's items, the output's signed state and the public state. When
     * none is left unmet, each requirement in turn reveals itself if it is a
     * secret, gives every child the current time as confirmation time and
     * marks the output spent; with no requirements at all that loop body never
     * runs, so nothing changes.
     */
    method Send(output: nat, userState: set<string>) returns (result: Outcome)
      requires Valid() && output < |outputs|
      modifies this
      ensures Valid() && time == old(time)
      ensures result == SendVerdict(old(outputs)[output], old(time), userState, old(facts))
      ensures result.Pass? && |old(outputs)[output].requirements| > 0 ==>
        && outputs == Spend(old(outputs), output, old(time))
        && facts == old(facts) + Secrets(old(outputs)[output].requirements)
      ensures !(result.Pass? && |old(outputs)[output].requirements| > 0) ==>
        outputs == old(outputs) && facts == old(facts)
    {
      var node := outputs[output];
      if node.confirmationTime.None? {
        return Fail(NotConfirmed);
      }
      if node.spent {
        return Fail(AlreadySpent);
      }
      var combinedState := View(time, MergeState(MergeState(userState, node.state), facts));
      var remainingRequirements := GetRemainingRequirements(node, combinedState);
      if |remainingRequirements| == 0 {
        SpendPath(output);
        result := Pass;
      } else {
        result := Fail(Unfulfillable(remainingRequirements));
      }
    }

    /**
     * The loop `send` runs once no requirement is unmet (tx-tools.js:178-188):
     * for each requirement, reveal it if it is a secret, confirm every child at
     * the current time and mark the output spent. With no requirements the
     * body never runs and nothing changes.
     */
    method SpendPath(output: nat)
      requires Valid() && output < |outputs|
      modifies this
      ensures Valid() && time == old(time)
      ensures |old(outputs)[output].requirements| > 0 ==>
        && outputs == Spend(old(outputs), output, old(time))
        && facts == old(facts) + Secrets(old(outputs)[output].requirements)
      ensures |old(outputs)[output].requirements| == 0 ==> outputs == old(outputs) && facts == old(facts)
    {
      ghost var a := outputs;
      var requirements := outputs[output].requirements;
      SpendShape(a, output, time);
      var k := 0;
      while k < |requirements|
        invariant 0 <= k <= |requirements|
        invariant time == old(time)
        invariant facts == old(facts) + SecretsUpTo(requirements, k)
        invariant k == 0 ==> outputs == a
        invariant k > 0 ==> outputs == Spend(a, output, time)
      {
        var requirement := requirements[k];
        if IsSecret(requirement) {
          Set(requirement);
        }
        ghost var base := outputs;
        ConfirmChildren(output);
        SpendStep(a, base, output, time);
        outputs := outputs[output := outputs[output].(spent := true)];
        k := k + 1;
      }
    }

    /**
     * The inner loop of `send` (tx-tools.js:183-186): every child of the
     * output gets the current time as its confirmation time.
     */
    method ConfirmChildren(output: nat)
      requires output < |outputs| && AllIn(outputs[output].possibleOutputs, |outputs|)
      modifies this
      ensures outputs == ConfirmAt(old(outputs), old(outputs)[output].possibleOutputs, old(time))
      ensures time == old(time) && facts == old(facts)
    {
      ghost var base := outputs;
      var children := outputs[output].possibleOutputs;
      var j := 0;
      ConfirmAtNone(base, time);
      while j < |children|
        invariant 0 <= j <= |children|
        invariant time == old(time) && facts == old(facts)
        invariant outputs == ConfirmAt(base, children[..j], time)
        invariant |outputs| == |base|
      {
        var child := children[j].1;
        ConfirmAtStep(base, children, j, time);
        outputs := outputs[child := outputs[child].(confirmationTime := Some(time))];
        j := j + 1;
      }
      assert children[..j] == children;
    }

    /**
     * `out(name1, name2, ...)` (tx-tools.js:196-203): the child under the
     * first name (the key "undefined" when called without names), then the
     * child under each further name. Reading changes nothing.
     */
    method Out(output: nat, names: seq<string>) returns (r: Result<Option<nat>, Failure>)
      requires Valid() && output < |outputs|
      ensures r == Walk(outputs, output, names)
    {
      var cur: Option<nat> := Lookup(outputs[output].possibleOutputs, if |names| == 0 then "undefined" else names[0]);
      var rest := if |names| == 0 then [] else names[1..];
      var n := 0;
      while n < |rest|
        invariant 0 <= n <= |rest|
        invariant cur.Some? ==> cur.value < |outputs|
        invariant Walk(outputs, output, names) == WalkSteps(outputs, cur, rest[n..])
      {
        if cur.None? {
          return Err(PathThroughUndefined);
        }
        assert rest[n..][1..] == rest[n + 1..];
        cur := Lookup(outputs[cur.value].possibleOutputs, rest[n]);
        n := n + 1;
      }
      r := Ok(cur);
    }
  }

  /** `createSpendPathList` (tx-tools.js:317-323): the outputs of a path map, in path order. */
  method CreateSpendPathList(possibleOutputMap: Entries<nat>) returns (result: seq<PossibleOutput>)
    ensures |result| == |possibleOutputMap|
    ensures forall p :: 0 <= p < |result| ==> result[p] == Existing(possibleOutputMap[p].1)
  {
    result := [];
    var x := 0;
    while x < |possibleOutputMap|
      invariant 0 <= x <= |possibleOutputMap| && |result| == x
      invariant forall p :: 0 <= p < x ==> result[p] == Existing(possibleOutputMap[p].1)
    {
      result := result + [Existing(possibleOutputMap[x].1)];
      x := x + 1;
    }
  }

  // Proof steps of the methods that create outputs. Each relates the registry
  // before and after one step; the methods chain them.

  /** What `CreateSpendPathMap` has built after `i` elements. */
  ghost predicate MappedUpTo(a: seq<Node>, cur: seq<Node>, items: seq<PossibleOutput>, paths: Entries<nat>, i: nat) {
    && ValidArena(a) && ItemsIn(items, |a|) && i <= |items|
    && Grew(a, cur) && AllIn(paths, |cur|) && DistinctKeys(paths)
    && AbsPairs(cur, paths) == FromPairs(ItemTrees(a, items)[..i])
  }

  lemma MappedStart(a: seq<Node>, items: seq<PossibleOutput>)
    requires ValidArena(a) && ItemsIn(items, |a|)
    ensures MappedUpTo(a, a, items, [], 0)
  {
    GrewReflexive(a);
  }

  lemma MappedExisting(a: seq<Node>, cur: seq<Node>, items: seq<PossibleOutput>, paths: Entries<nat>, i: nat)
    requires MappedUpTo(a, cur, items, paths, i) && i < |items| && items[i].Existing?
    ensures items[i].output < |cur|
    ensures MappedUpTo(a, cur, items, Put(paths, KeyOf(cur[items[i].output].name), items[i].output), i + 1)
  {
    var all := ItemTrees(a, items);
    var o := items[i].output;
    assert all[..i + 1] == all[..i] + [all[i]];
    FromPairsSnoc(all[..i], all[i]);
    AbsExtends(a, cur, o);
    assert cur[o] == cur[..|a|][o];
    AbsPairsPut(cur, paths, KeyOf(cur[o].name), o);
  }

  lemma AnywhereIsLower(a: seq<Node>, cur: seq<Node>, items: seq<PossibleOutput>, i: nat)
    requires ValidArena(a) && ItemsIn(items, |a|) && i < |items| && items[i].Anywhere? && ValidArena(cur)
    ensures TreeHeight(Forest(ItemTrees(cur, []))) < TreeHeight(Forest(ItemTrees(a, items)))
  {
    ChildIsLower(Forest(ItemTrees(a, items)), i);
    SameChildrenSameHeight(Forest(ItemTrees(cur, [])), AnywhereLeaf(items[i].requirements));
  }

  lemma MappedAnywhere(
    a: seq<Node>, cur: seq<Node>, next: seq<Node>, items: seq<PossibleOutput>, paths: Entries<nat>, i: nat, leaf: nat)
    requires MappedUpTo(a, cur, items, paths, i) && i < |items| && items[i].Anywhere?
    requires Grew(cur, next) && leaf < |next|
    requires Abs(next, leaf) == Tree(None, items[i].requirements, {}, None, false, CopyPairs(FromPairs(ItemTrees(cur, []))))
    ensures MappedUpTo(a, next, items, Put(paths, "Anywhere", leaf), i + 1)
  {
    var all := ItemTrees(a, items);
    assert all[..i + 1] == all[..i] + [all[i]];
    FromPairsSnoc(all[..i], all[i]);
    GrewTransitive(a, cur, next);
    AbsPairsExtends(cur, next, paths);
    assert ItemTrees(cur, []) == [];
    AbsPairsPut(next, paths, "Anywhere", leaf);
  }

  lemma MappedAll(a: seq<Node>, cur: seq<Node>, items: seq<PossibleOutput>, paths: Entries<nat>)
    requires MappedUpTo(a, cur, items, paths, |items|)
    ensures AbsPairs(cur, paths) == FromPairs(ItemTrees(a, items))
  {
    assert ItemTrees(a, items)[..|items|] == ItemTrees(a, items);
  }

  /** What `CopyOutputPaths` has built after `i` entries. */
  ghost predicate CopiedUpTo(a: seq<Node>, cur: seq<Node>, m: Entries<nat>, result: Entries<nat>, i: nat) {
    && ValidArena(a) && AllIn(m, |a|) && DistinctKeys(m) && i <= |m|
    && Grew(a, cur) && |result| == i
    && (forall p :: 0 <= p < i ==> result[p].0 == m[p].0 && |a| <= result[p].1 < |cur|)
    && AbsPairs(cur, result) == CopyPairs(AbsPairs(a, m))[..i]
  }

  lemma CopiedStart(a: seq<Node>, m: Entries<nat>)
    requires ValidArena(a) && AllIn(m, |a|) && DistinctKeys(m)
    ensures CopiedUpTo(a, a, m, [], 0)
  {
    GrewReflexive(a);
  }

  lemma CopyIsLower(a: seq<Node>, cur: seq<Node>, m: Entries<nat>, i: nat)
    requires ValidArena(a) && AllIn(m, |a|) && i < |m| && Grew(a, cur)
    ensures m[i].1 < |cur| && Abs(cur, m[i].1) == Abs(a, m[i].1)
    ensures TreeHeight(Abs(cur, m[i].1)) < TreeHeight(Forest(AbsPairs(a, m)))
  {
    AbsExtends(a, cur, m[i].1);
    ChildIsLower(Forest(AbsPairs(a, m)), i);
  }

  /** The key at position `i` of an object is not among the keys of a prefix-keyed list shorter than `i + 1`. */
  lemma FreshKey(m: Entries<nat>, result: Entries<nat>, i: nat)
    requires DistinctKeys(m) && i < |m| && |result| == i
    requires forall p :: 0 <= p < i ==> result[p].0 == m[p].0
    ensures m[i].0 !in Keys(result)
  {
    forall p | 0 <= p < |result| ensures result[p].0 != m[i].0 {
      assert m[p].0 != m[i].0;
    }
  }

  lemma CopiedStep(
    a: seq<Node>, cur: seq<Node>, next: seq<Node>, m: Entries<nat>, result: Entries<nat>, i: nat, copy: nat)
    requires CopiedUpTo(a, cur, m, result, i) && i < |m| && m[i].1 < |cur|
    requires Grew(cur, next) && |cur| <= copy < |next|
    requires Abs(next, copy) == CopyTree(Abs(cur, m[i].1))
    ensures CopiedUpTo(a, next, m, Put(result, m[i].0, copy), i + 1)
  {
    var r := result + [(m[i].0, copy)];
    FreshKey(m, result, i);
    assert Put(result, m[i].0, copy) == r;
    GrewTransitive(a, cur, next);
    AbsExtends(a, cur, m[i].1);
    AbsPairsExtends(cur, next, result);
    CopyTargetSnoc(a, next, m, result, i, copy);
    assert forall p :: 0 <= p < i + 1 ==> r[p].0 == m[p].0 && |a| <= r[p].1 < |next|;
  }

  /** One more copied entry extends the copied prefix by one. */
  lemma CopyTargetSnoc(a: seq<Node>, next: seq<Node>, m: Entries<nat>, result: Entries<nat>, i: nat, copy: nat)
    requires ValidArena(a) && AllIn(m, |a|) && i < |m|
    requires ValidArena(next) && AllIn(result, |next|) && copy < |next|
    requires AbsPairs(next, result) == CopyPairs(AbsPairs(a, m))[..i]
    requires Abs(next, copy) == CopyTree(Abs(a, m[i].1))
    ensures AllIn(result + [(m[i].0, copy)], |next|)
    ensures AbsPairs(next, result + [(m[i].0, copy)]) == CopyPairs(AbsPairs(a, m))[..i + 1]
  {
    var target := CopyPairs(AbsPairs(a, m));
    AbsPairsSnoc(next, result, m[i].0, copy);
    assert target[..i + 1] == target[..i] + [target[i]];
  }

  lemma CopiedAll(a: seq<Node>, cur: seq<Node>, m: Entries<nat>, result: Entries<nat>)
    requires CopiedUpTo(a, cur, m, result, |m|)
    ensures DistinctKeys(result)
    ensures AbsPairs(cur, result) == CopyPairs(AbsPairs(a, m))
  {
    assert CopyPairs(AbsPairs(a, m))[..|m|] == CopyPairs(AbsPairs(a, m));
  }

  lemma OutputTree(
    a: seq<Node>, b: seq<Node>, c: seq<Node>, items: seq<PossibleOutput>, paths: Entries<nat>, n: Node)
    requires ValidArena(a) && ItemsIn(items, |a|)
    requires ValidArena(b) && AllIn(paths, |b|) && AbsPairs(b, paths) == FromPairs(ItemTrees(a, items))
    requires ValidArena(c) && AllIn(n.possibleOutputs, |c|) && DistinctKeys(n.possibleOutputs)
    requires AbsPairs(c, n.possibleOutputs) == CopyPairs(AbsPairs(b, paths))
    ensures ValidArena(c + [n])
    ensures Abs(c + [n], |c|) ==
      Tree(n.name, n.requirements, n.state, n.confirmationTime, n.spent, CopyPairs(FromPairs(ItemTrees(a, items))))
  {
    AbsAppended(c, n);
  }

  lemma OutputGrew(a: seq<Node>, b: seq<Node>, c: seq<Node>, n: Node)
    requires Grew(a, b) && Grew(b, c) && DistinctKeys(n.possibleOutputs)
    requires forall p :: 0 <= p < |n.possibleOutputs| ==> |b| <= n.possibleOutputs[p].1 < |c|
    ensures Grew(a, c + [n])
  {
    GrewTransitive(a, b, c);
    GrewAppend(a, c, n);
  }

  lemma CopySetup(a: seq<Node>, id: nat)
    requires ValidArena(a) && id < |a|
    ensures AllIn(a[id].possibleOutputs, |a|) && DistinctKeys(a[id].possibleOutputs)
    ensures TreeHeight(Forest(AbsPairs(a, a[id].possibleOutputs))) == TreeHeight(Abs(a, id))
  {
    AbsChildren(a, id);
    SameChildrenSameHeight(Forest(AbsPairs(a, a[id].possibleOutputs)), Abs(a, id));
  }

  lemma CopyList(a: seq<Node>, b: seq<Node>, id: nat, copies: Entries<nat>, list: seq<PossibleOutput>)
    requires ValidArena(a) && id < |a| && AllIn(a[id].possibleOutputs, |a|)
    requires Grew(a, b) && |copies| == |a[id].possibleOutputs| && AllIn(copies, |b|)
    requires AbsPairs(b, copies) == CopyPairs(AbsPairs(a, a[id].possibleOutputs))
    requires |list| == |copies| && forall p :: 0 <= p < |list| ==> list[p] == Existing(copies[p].1)
    ensures ItemsIn(list, |b|)
    ensures TreeHeight(Forest(ItemTrees(b, list))) <= TreeHeight(Abs(a, id))
    ensures CopyPairs(FromPairs(ItemTrees(b, list))) == FromPairs(CopiedChildren(Abs(a, id)))
  {
    var t := Abs(a, id);
    AbsChildren(a, id);
    assert ItemTrees(b, list) == CopiedChildren(t) by {
      forall p | 0 <= p < |list|
        ensures ItemTrees(b, list)[p] == CopiedChildren(t)[p]
      {
        assert Abs(b, copies[p].1) == AbsPairs(b, copies)[p].1;
      }
    }
    CopiedChildrenNoHigher(t);
    CopiesStayCopies(t);
  }

  lemma CopyFinish(a: seq<Node>, c: seq<Node>, id: nat, path: nat)
    requires ValidArena(a) && id < |a| && Grew(a, c) && |a| <= path < |c|
    requires Abs(c, path) == Tree(a[id].name, a[id].requirements, {}, None, false, FromPairs(CopiedChildren(Abs(a, id))))
    ensures var d := c[path := c[path].(state := c[path].state + a[id].state)];
      Grew(a, d) && Abs(d, path) == CopyTree(Abs(a, id))
  {
    var n := c[path].(state := c[path].state + a[id].state);
    var d := c[path := n];
    AbsUpdateNode(c, path, n);
    assert d[..|a|] == c[..|a|];
    assert forall i :: 0 <= i < |d| ==> d[i].possibleOutputs == c[i].possibleOutputs;
  }
}
