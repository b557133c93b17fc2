/**
 * Outputs as the ledger stores them. Every output the engine creates is made
 * by `GlobalState.Output` and appended to the registry `outputs`
 * (tx-tools.js:53-57); a reference to an output is its position in that
 * registry, and an output's `possibleOutputs` map path names to positions. An
 * output's children are always created, and so registered, before the output
 * itself, so every child sits at a smaller position than its parent.
 */
module Arena {
  import opened Outcomes
  import opened Facts
  import opened Requirements
  import opened OrderedMaps
  import opened Trees

  /** The fields of one `OutputClass` object (tx-tools.js:127-140). */
  datatype Node = Node(
    name: Option<string>,
    requirements: seq<string>,
    state: set<string>,              // keys signed onto this spend path
    confirmationTime: Option<int>,   // None while `undefined`
    spent: bool,
    possibleOutputs: Entries<nat>)   // path name to the child's registry position

  /** An element of the `possibleOutputs` argument of `Output` (tx-tools.js:124-126). */
  datatype PossibleOutput = Existing(output: nat) | Anywhere(requirements: seq<string>)

  /**
   * Children are registered before their parents, and an output's children
   * sit under distinct path names (they are the entries of one object).
   */
  ghost predicate ValidArena(a: seq<Node>) {
    && (forall i, p :: 0 <= i < |a| && 0 <= p < |a[i].possibleOutputs| ==> a[i].possibleOutputs[p].1 < i)
    && (forall i :: 0 <= i < |a| ==> DistinctKeys(a[i].possibleOutputs))
  }

  ghost predicate AllIn(m: Entries<nat>, n: nat) {
    forall p :: 0 <= p < |m| ==> m[p].1 < n
  }

  ghost predicate ItemsIn(items: seq<PossibleOutput>, n: nat) {
    forall p :: 0 <= p < |items| && items[p].Existing? ==> items[p].output < n
  }

  /** `b` is `a` with more outputs registered after it. */
  ghost predicate Extends(a: seq<Node>, b: seq<Node>) {
    |a| <= |b| && b[..|a|] == a
  }

  /** The outputs registered from position `lo` on only have children registered from `lo` on. */
  ghost predicate ClosedFrom(a: seq<Node>, lo: nat) {
    forall i, p :: lo <= i < |a| && 0 <= p < |a[i].possibleOutputs| ==> lo <= a[i].possibleOutputs[p].1
  }

  lemma ExtendsTransitive(a: seq<Node>, b: seq<Node>, c: seq<Node>)
    requires Extends(a, b) && Extends(b, c)
    ensures Extends(a, c)
  {
    assert c[..|a|] == c[..|b|][..|a|];
  }

  lemma ClosedFromExtends(b: seq<Node>, c: seq<Node>, lo: nat)
    requires ClosedFrom(b, lo) && Extends(b, c) && ClosedFrom(c, |b|) && lo <= |b|
    ensures ClosedFrom(c, lo)
  {
    forall i, p | lo <= i < |c| && 0 <= p < |c[i].possibleOutputs|
      ensures lo <= c[i].possibleOutputs[p].1
    {
      if i < |b| {
        assert c[i] == c[..|b|][i];
      }
    }
  }

  /** Registering a new output whose children are already registered keeps the registry well formed. */
  lemma ValidAppend(a: seq<Node>, n: Node)
    requires ValidArena(a) && AllIn(n.possibleOutputs, |a|) && DistinctKeys(n.possibleOutputs)
    ensures ValidArena(a + [n]) && Extends(a, a + [n])
  {
    var b := a + [n];
    assert b[..|a|] == a;
    assert forall i :: 0 <= i < |a| ==> b[i] == a[i];
  }

  /**
   * `b` is `a` with more outputs registered after it, the new ones pointing
   * only among themselves: what creating outputs does to the registry.
   */
  ghost predicate Grew(a: seq<Node>, b: seq<Node>) {
    ValidArena(b) && Extends(a, b) && ClosedFrom(b, |a|)
  }

  lemma GrewReflexive(a: seq<Node>)
    requires ValidArena(a)
    ensures Grew(a, a)
  {
    assert a[..|a|] == a;
  }

  lemma GrewTransitive(a: seq<Node>, b: seq<Node>, c: seq<Node>)
    requires Grew(a, b) && Grew(b, c)
    ensures Grew(a, c)
  {
    ExtendsTransitive(a, b, c);
    ClosedFromExtends(b, c, |a|);
  }

  /** Registering one more output whose children were created after `a` keeps the growth shape. */
  lemma GrewAppend(a: seq<Node>, c: seq<Node>, n: Node)
    requires Grew(a, c) && AllIn(n.possibleOutputs, |c|) && DistinctKeys(n.possibleOutputs)
    requires forall p :: 0 <= p < |n.possibleOutputs| ==> |a| <= n.possibleOutputs[p].1
    ensures Grew(a, c + [n])
  {
    var d := c + [n];
    ValidAppend(c, n);
    ExtendsTransitive(a, c, d);
    forall i, p | |a| <= i < |d| && 0 <= p < |d[i].possibleOutputs|
      ensures |a| <= d[i].possibleOutputs[p].1
    {
      if i < |c| {
        assert d[i] == c[i];
      }
    }
  }

  /** The output at `id` with everything reachable from it, as a value. */
  ghost function Abs(a: seq<Node>, id: nat): (r: Tree)
    requires ValidArena(a) && id < |a|
    decreases id
  {
    var n := a[id];
    Tree(n.name, n.requirements, n.state, n.confirmationTime, n.spent,
      seq(|n.possibleOutputs|, p requires 0 <= p < |n.possibleOutputs| =>
        (n.possibleOutputs[p].0, Abs(a, n.possibleOutputs[p].1))))
  }

  ghost function AbsPairs(a: seq<Node>, m: Entries<nat>): (r: Entries<Tree>)
    requires ValidArena(a) && AllIn(m, |a|)
    ensures |r| == |m|
    ensures forall p :: 0 <= p < |m| ==> r[p] == (m[p].0, Abs(a, m[p].1))
  {
    seq(|m|, p requires 0 <= p < |m| => (m[p].0, Abs(a, m[p].1)))
  }

  /** The value of one element of `Output`'s `possibleOutputs` argument, under the key it is stored at. */
  ghost function ItemTree(a: seq<Node>, item: PossibleOutput): (r: (string, Tree))
    requires ValidArena(a) && (item.Existing? ==> item.output < |a|)
  {
    match item
    case Existing(i) => (KeyOf(a[i].name), Abs(a, i))
    case Anywhere(reqs) => ("Anywhere", AnywhereLeaf(reqs))
  }

  ghost function ItemTrees(a: seq<Node>, items: seq<PossibleOutput>): (r: Entries<Tree>)
    requires ValidArena(a) && ItemsIn(items, |a|)
    ensures |r| == |items|
    ensures forall p :: 0 <= p < |items| ==> r[p] == ItemTree(a, items[p])
  {
    seq(|items|, p requires 0 <= p < |items| => ItemTree(a, items[p]))
  }

  lemma AbsChildren(a: seq<Node>, id: nat)
    requires ValidArena(a) && id < |a|
    ensures AllIn(a[id].possibleOutputs, |a|)
    ensures Abs(a, id).possibleOutputs == AbsPairs(a, a[id].possibleOutputs)
  {
  }

  /** An output's value depends only on the outputs registered up to it. */
  lemma {:induction false} AbsSamePrefix(a: seq<Node>, b: seq<Node>, id: nat)
    requires ValidArena(a) && ValidArena(b) && id < |a| && id < |b|
    requires a[..id + 1] == b[..id + 1]
    ensures Abs(a, id) == Abs(b, id)
    decreases id
  {
    assert a[id] == a[..id + 1][id] == b[..id + 1][id] == b[id];
    var kids := a[id].possibleOutputs;
    forall p | 0 <= p < |kids|
      ensures Abs(a, kids[p].1) == Abs(b, kids[p].1)
    {
      var c := kids[p].1;
      assert a[..c + 1] == a[..id + 1][..c + 1];
      assert b[..c + 1] == b[..id + 1][..c + 1];
      AbsSamePrefix(a, b, c);
    }
  }

  /** Registering more outputs does not change the value of those already registered. */
  lemma AbsExtends(a: seq<Node>, b: seq<Node>, id: nat)
    requires ValidArena(a) && ValidArena(b) && Extends(a, b) && id < |a|
    ensures Abs(a, id) == Abs(b, id)
  {
    assert a[..id + 1] == b[..|a|][..id + 1];
    AbsSamePrefix(a, b, id);
  }

  lemma AbsPairsExtends(a: seq<Node>, b: seq<Node>, m: Entries<nat>)
    requires ValidArena(a) && ValidArena(b) && Extends(a, b) && AllIn(m, |a|)
    ensures AllIn(m, |b|) && AbsPairs(a, m) == AbsPairs(b, m)
  {
    forall p | 0 <= p < |m| ensures Abs(a, m[p].1) == Abs(b, m[p].1) {
      AbsExtends(a, b, m[p].1);
    }
  }

  /** The output registered last holds the values of the children it was given. */
  lemma AbsAppended(c: seq<Node>, n: Node)
    requires ValidArena(c) && AllIn(n.possibleOutputs, |c|) && DistinctKeys(n.possibleOutputs)
    ensures ValidArena(c + [n])
    ensures Abs(c + [n], |c|) ==
      Tree(n.name, n.requirements, n.state, n.confirmationTime, n.spent, AbsPairs(c, n.possibleOutputs))
  {
    var d := c + [n];
    ValidAppend(c, n);
    AbsChildren(d, |c|);
    AbsPairsExtends(c, d, n.possibleOutputs);
  }

  lemma ItemTreesExtends(a: seq<Node>, b: seq<Node>, items: seq<PossibleOutput>)
    requires ValidArena(a) && ValidArena(b) && Extends(a, b) && ItemsIn(items, |a|)
    ensures ItemsIn(items, |b|) && ItemTrees(a, items) == ItemTrees(b, items)
  {
    forall p | 0 <= p < |items| && items[p].Existing?
      ensures Abs(a, items[p].output) == Abs(b, items[p].output) && a[items[p].output] == b[items[p].output]
    {
      AbsExtends(a, b, items[p].output);
      assert a[items[p].output] == b[..|a|][items[p].output];
    }
  }

  lemma AbsPairsSnoc(a: seq<Node>, m: Entries<nat>, k: string, o: nat)
    requires ValidArena(a) && AllIn(m, |a|) && o < |a|
    ensures AllIn(m + [(k, o)], |a|)
    ensures AbsPairs(a, m + [(k, o)]) == AbsPairs(a, m) + [(k, Abs(a, o))]
  {
    var r := m + [(k, o)];
    assert forall p :: 0 <= p < |m| ==> r[p] == m[p];
    assert r[|m|] == (k, o);
    var lhs, rhs := AbsPairs(a, r), AbsPairs(a, m) + [(k, Abs(a, o))];
    forall p | 0 <= p < |r| ensures lhs[p] == rhs[p] {
      if p < |m| {
        assert lhs[p] == (m[p].0, Abs(a, m[p].1));
      }
    }
  }

  /**
   * Replacing the fields of output `id` other than its children: the registry
   * stays well formed, the outputs before it keep their value, and its own
   * value takes the new fields.
   */
  lemma AbsUpdateNode(a: seq<Node>, id: nat, n: Node)
    requires ValidArena(a) && id < |a| && n.possibleOutputs == a[id].possibleOutputs
    ensures ValidArena(a[id := n])
    ensures Abs(a[id := n], id) == Abs(a, id).(name := n.name, requirements := n.requirements,
      state := n.state, confirmationTime := n.confirmationTime, spent := n.spent)
    ensures forall i :: 0 <= i < id ==> Abs(a[id := n], i) == Abs(a, i)
  {
    var b := a[id := n];
    forall i | 0 <= i < id ensures Abs(b, i) == Abs(a, i) {
      assert a[..i + 1] == b[..i + 1];
      AbsSamePrefix(a, b, i);
    }
  }

  lemma AbsPairsPut(a: seq<Node>, m: Entries<nat>, k: string, o: nat)
    requires ValidArena(a) && AllIn(m, |a|) && o < |a|
    ensures AllIn(Put(m, k, o), |a|)
    ensures AbsPairs(a, Put(m, k, o)) == Put(AbsPairs(a, m), k, Abs(a, o))
  {
    var r := AbsPairs(a, m);
    SameKeysSameIndex(m, r, k);
    var lhs, rhs := AbsPairs(a, Put(m, k, o)), Put(r, k, Abs(a, o));
    if k in Keys(m) {
      var i := IndexOf(m, k);
      assert |lhs| == |rhs|;
      forall p | 0 <= p < |lhs| ensures lhs[p] == rhs[p] {
        if p == i { assert Put(m, k, o)[p] == (k, o); }
      }
    } else {
      assert |lhs| == |rhs|;
      forall p | 0 <= p < |lhs| ensures lhs[p] == rhs[p] {
        if p < |m| { assert Put(m, k, o)[p] == m[p]; }
      }
    }
  }

  /**
   * Independence of copies: the outputs registered from `lo` on, when they
   * only point among themselves, keep their value whatever happens to the
   * outputs registered before `lo` (signing, confirming or spending the
   * originals they were copied from).
   */
  lemma {:induction false} AbsIgnoresOlder(a: seq<Node>, b: seq<Node>, lo: nat, id: nat)
    requires ValidArena(a) && ValidArena(b) && |a| <= |b| && ClosedFrom(a, lo)
    requires forall i :: lo <= i < |a| ==> b[i] == a[i]
    requires lo <= id < |a|
    ensures Abs(a, id) == Abs(b, id)
    decreases id
  {
    var kids := a[id].possibleOutputs;
    forall p | 0 <= p < |kids|
      ensures Abs(a, kids[p].1) == Abs(b, kids[p].1)
    {
      AbsIgnoresOlder(a, b, lo, kids[p].1);
    }
  }

  /**
   * Signing or confirming an output (any change that keeps its children) does
   * not change any output made by a later call, such as the copies `Output`
   * and `copy()` take of it.
   */
  lemma UpdateKeepsLaterOutputs(a: seq<Node>, b: seq<Node>, j: nat, n: Node, id: nat)
    requires Grew(a, b) && j < |a| && |a| <= id < |b|
    requires n.possibleOutputs == b[j].possibleOutputs
    ensures ValidArena(b[j := n]) && Abs(b[j := n], id) == Abs(b, id)
  {
    AbsUpdateNode(b, j, n);
    AbsIgnoresOlder(b, b[j := n], |a|, id);
  }

  /** Nor does spending an output created before them. */
  lemma SpendKeepsLaterOutputs(a: seq<Node>, b: seq<Node>, j: nat, time: int, id: nat)
    requires Grew(a, b) && j < |a| && |a| <= id < |b|
    ensures ValidArena(Spend(b, j, time)) && Abs(Spend(b, j, time), id) == Abs(b, id)
  {
    SpendChanges(b, j, time);
    assert forall c :: c in ChildIds(b[j].possibleOutputs) ==> c < j;
    AbsIgnoresOlder(b, Spend(b, j, time), |a|, id);
  }

  /**
   * And the other way round: signing or confirming an output made by a later
   * call (a copy, or an output holding copies) does not change any output
   * registered before that call, such as the original it was copied from.
   */
  lemma UpdateLaterKeepsOlder(a: seq<Node>, b: seq<Node>, id: nat, n: Node, j: nat)
    requires Grew(a, b) && |a| <= id < |b| && j < |a|
    requires n.possibleOutputs == b[id].possibleOutputs
    ensures ValidArena(b[id := n]) && Abs(b[id := n], j) == Abs(b, j)
  {
    AbsUpdateNode(b, id, n);
    assert b[id := n][..j + 1] == b[..j + 1];
    AbsSamePrefix(b[id := n], b, j);
  }

  /** Nor does spending an output made by a later call. */
  lemma SpendLaterKeepsOlder(a: seq<Node>, b: seq<Node>, id: nat, time: int, j: nat)
    requires Grew(a, b) && |a| <= id < |b| && j < |a|
    ensures ValidArena(Spend(b, id, time)) && Abs(Spend(b, id, time), j) == Abs(b, j)
  {
    SpendChanges(b, id, time);
    assert forall c :: c in ChildIds(b[id].possibleOutputs) ==> |a| <= c;
    assert Spend(b, id, time)[..j + 1] == b[..j + 1];
    AbsSamePrefix(Spend(b, id, time), b, j);
  }

  lemma LookupAbsPairs(a: seq<Node>, m: Entries<nat>, k: string)
    requires ValidArena(a) && AllIn(m, |a|)
    ensures Lookup(m, k).Some? ==> Lookup(m, k).value < |a|
    ensures Lookup(AbsPairs(a, m), k) ==
      if Lookup(m, k).Some? then Some(Abs(a, Lookup(m, k).value)) else None
  {
    SameKeysSameIndex(m, AbsPairs(a, m), k);
  }

  /** The registry positions of an output's children. */
  function ChildIds(kids: Entries<nat>): (r: set<nat>) {
    set p | 0 <= p < |kids| :: kids[p].1
  }

  /** Every output whose position is a child id gets confirmation time `time`. */
  function ConfirmAt(a: seq<Node>, kids: Entries<nat>, time: int): (r: seq<Node>)
    ensures |r| == |a|
  {
    seq(|a|, i requires 0 <= i < |a| =>
      if i in ChildIds(kids) then a[i].(confirmationTime := Some(time)) else a[i])
  }

  /**
   * The registry after output `id` is spent at `time` (tx-tools.js:183-187):
   * the output is marked spent and each of its direct children gets
   * confirmation time `time`, whatever it had before.
   */
  function Spend(a: seq<Node>, id: nat, time: int): (r: seq<Node>)
    requires id < |a|
    ensures |r| == |a|
  {
    seq(|a|, i requires 0 <= i < |a| =>
      if i == id then a[i].(spent := true)
      else if i in ChildIds(a[id].possibleOutputs) then a[i].(confirmationTime := Some(time))
      else a[i])
  }

  /** The requirement strings that end in "Secret": the ones a successful send reveals. */
  function Secrets(reqs: seq<string>): (r: set<string>) {
    SecretsUpTo(reqs, |reqs|)
  }

  /** The secrets among the first `k` requirements. */
  function SecretsUpTo(reqs: seq<string>, k: nat): (r: set<string>)
    requires k <= |reqs|
  {
    if k == 0 then {}
    else SecretsUpTo(reqs, k - 1) + (if IsSecret(reqs[k - 1]) then {reqs[k - 1]} else {})
  }

  lemma {:induction false} SecretsUpToMembers(reqs: seq<string>, k: nat, x: string)
    requires k <= |reqs|
    ensures x in SecretsUpTo(reqs, k) <==> exists i :: 0 <= i < k && reqs[i] == x && IsSecret(x)
  {
    if k > 0 {
      SecretsUpToMembers(reqs, k - 1, x);
    }
  }

  /** A send reveals exactly the requirements named as secrets. */
  lemma SecretsMembers(reqs: seq<string>, x: string)
    ensures x in Secrets(reqs) <==> x in reqs && IsSecret(x)
  {
    SecretsUpToMembers(reqs, |reqs|, x);
  }

  /**
   * Which failure `send` raises, in the order of its checks (tx-tools.js:150-159,
   * 176-190), or Pass. Requirements are evaluated against the sender's private
   * items, the output's signed state and the public state, merged.
   */
  function SendVerdict(n: Node, time: int, userState: set<string>, publicFacts: set<string>): (r: Outcome) {
    if n.confirmationTime.None? then Fail(NotConfirmed)
    else if n.spent then Fail(AlreadySpent)
    else
      var remaining := Remaining(n.requirements, n.confirmationTime, View(time, MergeState(MergeState(userState, n.state), publicFacts)));
      if remaining == [] then Pass else Fail(Unfulfillable(remaining))
  }

  /**
   * `getRemainingRequirements` (tx-tools.js:222-240): one pass over the
   * requirements, collecting the unmet ones in order; it changes nothing.
   */
  method GetRemainingRequirements(output: Node, state: View) returns (results: seq<string>)
    ensures results == Remaining(output.requirements, output.confirmationTime, state)
  {
    results := [];
    var i := 0;
    while i < |output.requirements|
      invariant 0 <= i <= |output.requirements|
      invariant results == Remaining(output.requirements[..i], output.confirmationTime, state)
    {
      var requirement := output.requirements[i];
      assert output.requirements[..i + 1][..i] == output.requirements[..i];
      if Unmet(requirement, output.confirmationTime, state) {
        results := results + [requirement];
      }
      i := i + 1;
    }
    assert output.requirements[..i] == output.requirements;
  }

  /** A send succeeds exactly when the output is confirmed, unspent, and every requirement holds. */
  lemma SendPassesIff(n: Node, time: int, userState: set<string>, publicFacts: set<string>)
    ensures SendVerdict(n, time, userState, publicFacts) == Pass <==>
      && n.confirmationTime.Some?
      && !n.spent
      && forall i :: 0 <= i < |n.requirements| ==>
           !Unmet(n.requirements[i], n.confirmationTime, View(time, MergeState(MergeState(userState, n.state), publicFacts)))
  {
    RemainingEmpty(n.requirements, n.confirmationTime, View(time, MergeState(MergeState(userState, n.state), publicFacts)));
  }

  /** A failing send for unmet requirements reports exactly the unmet ones, in order. */
  lemma SendReportsUnmet(n: Node, time: int, userState: set<string>, publicFacts: set<string>, x: string)
    requires SendVerdict(n, time, userState, publicFacts).Fail?
    requires SendVerdict(n, time, userState, publicFacts).error.Unfulfillable?
    ensures x in SendVerdict(n, time, userState, publicFacts).error.remaining <==>
      x in n.requirements && Unmet(x, n.confirmationTime, View(time, MergeState(MergeState(userState, n.state), publicFacts)))
  {
    RemainingMembers(n.requirements, n.confirmationTime, View(time, MergeState(MergeState(userState, n.state), publicFacts)), x);
  }

  /** A confirmed output with no requirements can always be "sent" (and, see `Ledger`, nothing changes). */
  lemma EmptyRequirementsPass(n: Node, time: int, userState: set<string>, publicFacts: set<string>)
    requires n.confirmationTime.Some? && !n.spent && n.requirements == []
    ensures SendVerdict(n, time, userState, publicFacts) == Pass
  {
  }

  /** What a spend changes: the output's spent flag and its children's confirmation time, nothing else. */
  lemma SpendChanges(a: seq<Node>, id: nat, time: int)
    requires ValidArena(a) && id < |a|
    ensures ValidArena(Spend(a, id, time))
    ensures Spend(a, id, time)[id] == a[id].(spent := true)
    ensures forall c :: c in ChildIds(a[id].possibleOutputs) ==>
      c < |a| && Spend(a, id, time)[c] == a[c].(confirmationTime := Some(time))
    ensures forall i :: 0 <= i < |a| && i != id && i !in ChildIds(a[id].possibleOutputs) ==>
      Spend(a, id, time)[i] == a[i]
  {
    var r := Spend(a, id, time);
    assert id !in ChildIds(a[id].possibleOutputs);
    forall i | 0 <= i < |r| ensures r[i].possibleOutputs == a[i].possibleOutputs { }
  }

  lemma ConfirmAtNone(b: seq<Node>, time: int)
    ensures ConfirmAt(b, [], time) == b
  {
    assert ChildIds([]) == {};
  }

  /** Confirming one more child. */
  lemma ConfirmAtStep(b: seq<Node>, kids: Entries<nat>, j: nat, time: int)
    requires j < |kids| && kids[j].1 < |b|
    ensures var c := ConfirmAt(b, kids[..j], time);
      ConfirmAt(b, kids[..j + 1], time) == c[kids[j].1 := c[kids[j].1].(confirmationTime := Some(time))]
  {
    assert ChildIds(kids[..j + 1]) == ChildIds(kids[..j]) + {kids[j].1} by {
      assert forall p :: 0 <= p < j ==> kids[..j + 1][p] == kids[..j][p];
      assert kids[..j + 1][j] == kids[j];
    }
  }

  /**
   * One turn of the spending loop: confirming the children and marking the
   * output spent yields the spent registry, whether it starts from the
   * registry before the spend or from the spent registry itself.
   */
  lemma SpendStep(a: seq<Node>, b: seq<Node>, id: nat, time: int)
    requires ValidArena(a) && id < |a| && (b == a || b == Spend(a, id, time))
    ensures var c := ConfirmAt(b, a[id].possibleOutputs, time);
      c[id := c[id].(spent := true)] == Spend(a, id, time)
  {
    assert id !in ChildIds(a[id].possibleOutputs);
  }

  /** Spending keeps the registry well formed and the spent output's children where they were. */
  lemma SpendShape(a: seq<Node>, id: nat, time: int)
    requires ValidArena(a) && id < |a|
    ensures ValidArena(Spend(a, id, time))
    ensures Spend(a, id, time)[id].possibleOutputs == a[id].possibleOutputs
    ensures AllIn(a[id].possibleOutputs, |a|)
  {
    SpendChanges(a, id, time);
  }

  /** Once spent, an output rejects every later send, whatever the time and the facts. */
  lemma SpentRejectsLaterSends(a: seq<Node>, id: nat, time: int, later: int, userState: set<string>, publicFacts: set<string>)
    requires ValidArena(a) && id < |a| && a[id].confirmationTime.Some?
    ensures SendVerdict(Spend(a, id, time)[id], later, userState, publicFacts) == Fail(AlreadySpent)
  {
    SpendChanges(a, id, time);
  }

  /**
   * The children of an output spent at time 0 get confirmation time 0, which
   * `timelock` treats as unconfirmed: a child that has a relative timelock
   * cannot be sent, at any later time and whatever the facts, until
   * `confirmed()` stamps it again.
   */
  lemma SpendAtZeroStrandsRelativeLocks(
    a: seq<Node>, id: nat, c: nat, d: nat, later: int, userState: set<string>, publicFacts: set<string>)
    requires ValidArena(a) && id < |a| && c in ChildIds(a[id].possibleOutputs)
    requires Render(RelLock(At(d))) in a[c].requirements
    ensures SendVerdict(Spend(a, id, 0)[c], later, userState, publicFacts) != Pass
  {
    SpendChanges(a, id, 0);
    var n := Spend(a, id, 0)[c];
    var i :| 0 <= i < |n.requirements| && n.requirements[i] == Render(RelLock(At(d)));
    RelLockNeedsNonZeroConfirmation(d, n.confirmationTime, View(later, MergeState(MergeState(userState, n.state), publicFacts)));
    SendPassesIff(n, later, userState, publicFacts);
  }

  /** `out(names...)` over the registry; `Out` in `Ledger` computes it. */
  ghost function Walk(a: seq<Node>, id: nat, names: seq<string>): (r: Result<Option<nat>, Failure>)
    requires ValidArena(a) && id < |a|
  {
    var first := Lookup(a[id].possibleOutputs, if |names| == 0 then "undefined" else names[0]);
    WalkSteps(a, first, if |names| == 0 then [] else names[1..])
  }

  ghost function WalkSteps(a: seq<Node>, cur: Option<nat>, rest: seq<string>): (r: Result<Option<nat>, Failure>)
    requires ValidArena(a) && (cur.Some? ==> cur.value < |a|)
    decreases |rest|
  {
    if rest == [] then Ok(cur)
    else if cur.None? then Err(PathThroughUndefined)
    else
      var next := Lookup(a[cur.value].possibleOutputs, rest[0]);
      WalkSteps(a, next, rest[1..])
  }

  ghost function AbsOption(a: seq<Node>, o: Option<nat>): (r: Option<Tree>)
    requires ValidArena(a) && (o.Some? ==> o.value < |a|)
  {
    if o.Some? then Some(Abs(a, o.value)) else None
  }

  ghost function AbsResult(a: seq<Node>, r: Result<Option<nat>, Failure>): (t: Result<Option<Tree>, Failure>)
    requires ValidArena(a) && (r.Ok? && r.value.Some? ==> r.value.value < |a|)
  {
    match r
    case Ok(o) => Ok(AbsOption(a, o))
    case Err(e) => Err(e)
  }

  lemma {:induction false} WalkStepsMatchesTree(a: seq<Node>, cur: Option<nat>, rest: seq<string>)
    requires ValidArena(a) && (cur.Some? ==> cur.value < |a|)
    ensures var w := WalkSteps(a, cur, rest);
      && (w.Ok? && w.value.Some? ==> w.value.value < |a|)
      && AbsResult(a, w) == TreeSteps(AbsOption(a, cur), rest)
    decreases |rest|
  {
    if rest != [] && cur.Some? {
      var kids := a[cur.value].possibleOutputs;
      AbsChildren(a, cur.value);
      LookupAbsPairs(a, kids, rest[0]);
      WalkStepsMatchesTree(a, Lookup(kids, rest[0]), rest[1..]);
    }
  }

  /** Walking the registry by names reaches the outputs the abstract tree has at those paths. */
  lemma WalkMatchesTree(a: seq<Node>, id: nat, names: seq<string>)
    requires ValidArena(a) && id < |a|
    ensures var w := Walk(a, id, names);
      && (w.Ok? && w.value.Some? ==> w.value.value < |a|)
      && AbsResult(a, w) == TreeOut(Abs(a, id), names)
  {
    var kids := a[id].possibleOutputs;
    var k := if |names| == 0 then "undefined" else names[0];
    AbsChildren(a, id);
    LookupAbsPairs(a, kids, k);
    WalkStepsMatchesTree(a, Lookup(kids, k), if |names| == 0 then [] else names[1..]);
  }
}
