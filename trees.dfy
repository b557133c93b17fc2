/**
 * The value of an output together with every output reachable from it through
 * `possibleOutputs`. The ledger keeps outputs as mutable objects; a `Tree` is
 * what one of them and its descendants hold at one moment, and is what the
 * copying operations are specified against.
 */
module Trees {
  import opened Outcomes
  import opened OrderedMaps

  datatype Tree = Tree(
    name: Option<string>,
    requirements: seq<string>,
    state: set<string>,
    confirmationTime: Option<int>,
    spent: bool,
    possibleOutputs: Entries<Tree>)

  /** The anonymous output built for a bare requirement list (tx-tools.js:310). */
  function AnywhereLeaf(requirements: seq<string>): (r: Tree) {
    Tree(None, requirements, {}, None, false, [])
  }

  /**
   * The key an output passed as an object is stored under (tx-tools.js:307):
   * its name, where the `undefined` name of an anonymous output becomes the
   * key "undefined".
   */
  function KeyOf(name: Option<string>): (r: string) {
    match name
    case Some(n) => n
    case None => "undefined"
  }

  /** Children re-keyed by their own names, each copied: the list `copy()` rebuilds an output from. */
  function CopiedChildren(t: Tree): (r: Entries<Tree>)
    decreases t, 0
  {
    seq(|t.possibleOutputs|, p requires 0 <= p < |t.possibleOutputs| =>
      (KeyOf(t.possibleOutputs[p].1.name), CopyTree(t.possibleOutputs[p].1)))
  }

  /**
   * What `copy()` yields: the same name, requirements and signed state, no
   * confirmation time, not spent, and as children copies of the children, stored
   * again under their own names with later ones winning (tx-tools.js:205-210,
   * 303-315).
   */
  function CopyTree(t: Tree): (r: Tree)
    decreases t, 1
  {
    Tree(t.name, t.requirements, t.state, None, false, FromPairs(CopiedChildren(t)))
  }

  /** Each child copied in place, under the key it already has. */
  function CopyPairs(m: Entries<Tree>): (r: Entries<Tree>)
    ensures |r| == |m|
    ensures forall p :: 0 <= p < |m| ==> r[p] == (m[p].0, CopyTree(m[p].1))
  {
    seq(|m|, p requires 0 <= p < |m| => (m[p].0, CopyTree(m[p].1)))
  }

  /** Copying a copy changes nothing: a copy is already unconfirmed, unspent and keyed by names. */
  lemma {:induction false} CopyTreeIdempotent(t: Tree)
    ensures CopyTree(CopyTree(t)) == CopyTree(t)
  {
    var kids := t.possibleOutputs;
    var l := CopiedChildren(t);
    var d := FromPairs(l);
    var c := CopyTree(t);
    assert c.possibleOutputs == d;
    var l2 := CopiedChildren(c);
    forall p | 0 <= p < |d| ensures l2[p] == d[p] {
      var q :| 0 <= q < |l| && l[q] == d[p];
      CopyTreeIdempotent(kids[q].1);
    }
    assert l2 == d;
    FromDistinctPairs(d);
  }

  /** The height of a tree: a leaf has height 1. */
  function TreeHeight(t: Tree): (h: nat)
    ensures h >= 1
    decreases t, 1
  {
    1 + KidsHeight(t, 0)
  }

  /** The greatest height among the children of `t` from position `i` on. */
  function KidsHeight(t: Tree, i: nat): (r: nat)
    requires i <= |t.possibleOutputs|
    decreases t, 0, |t.possibleOutputs| - i
  {
    if i == |t.possibleOutputs| then 0
    else
      var h := TreeHeight(t.possibleOutputs[i].1);
      var rest := KidsHeight(t, i + 1);
      if h < rest then rest else h
  }

  /** A tree with the given children and nothing else: measures lists of children. */
  function Forest(m: Entries<Tree>): (r: Tree) {
    Tree(None, [], {}, None, false, m)
  }

  lemma {:induction false} KidsHeightAbove(t: Tree, i: nat, p: nat)
    requires i <= p < |t.possibleOutputs|
    ensures TreeHeight(t.possibleOutputs[p].1) <= KidsHeight(t, i)
    decreases p - i
  {
    if i < p {
      KidsHeightAbove(t, i + 1, p);
    }
  }

  lemma {:induction false} KidsHeightBelow(t: Tree, i: nat, b: nat)
    requires i <= |t.possibleOutputs|
    requires forall p :: i <= p < |t.possibleOutputs| ==> TreeHeight(t.possibleOutputs[p].1) <= b
    ensures KidsHeight(t, i) <= b
    decreases |t.possibleOutputs| - i
  {
    if i < |t.possibleOutputs| {
      KidsHeightBelow(t, i + 1, b);
    }
  }

  /** A child is lower than its parent. */
  lemma ChildIsLower(t: Tree, p: nat)
    requires p < |t.possibleOutputs|
    ensures TreeHeight(t.possibleOutputs[p].1) < TreeHeight(t)
  {
    KidsHeightAbove(t, 0, p);
  }

  /** A tree is no higher than one more than its highest child. */
  lemma HeightFromChildren(t: Tree, b: nat)
    requires b >= 1
    requires forall p :: 0 <= p < |t.possibleOutputs| ==> TreeHeight(t.possibleOutputs[p].1) < b
    ensures TreeHeight(t) <= b
  {
    KidsHeightBelow(t, 0, b - 1);
  }

  /** The height depends on the children only. */
  lemma SameChildrenSameHeight(t: Tree, u: Tree)
    requires t.possibleOutputs == u.possibleOutputs
    ensures TreeHeight(t) == TreeHeight(u)
  {
    SameChildrenKidsHeight(t, u, 0);
  }

  lemma {:induction false} SameChildrenKidsHeight(t: Tree, u: Tree, i: nat)
    requires t.possibleOutputs == u.possibleOutputs && i <= |t.possibleOutputs|
    ensures KidsHeight(t, i) == KidsHeight(u, i)
    decreases |t.possibleOutputs| - i
  {
    if i < |t.possibleOutputs| {
      SameChildrenKidsHeight(t, u, i + 1);
    }
  }

  /** A copy is no higher than the original (copying can only drop children whose names clash). */
  lemma {:induction false} CopyNoHigher(t: Tree)
    ensures TreeHeight(CopyTree(t)) <= TreeHeight(t)
  {
    var c := CopyTree(t);
    var l := CopiedChildren(t);
    forall p | 0 <= p < |c.possibleOutputs|
      ensures TreeHeight(c.possibleOutputs[p].1) < TreeHeight(t)
    {
      var q :| 0 <= q < |l| && l[q] == c.possibleOutputs[p];
      CopyNoHigher(t.possibleOutputs[q].1);
      ChildIsLower(t, q);
    }
    HeightFromChildren(c, TreeHeight(t));
  }

  /** Rebuilding an object from a list never makes it higher: its values are among the list's. */
  lemma FromPairsNoHigher(l: Entries<Tree>)
    ensures TreeHeight(Forest(FromPairs(l))) <= TreeHeight(Forest(l))
  {
    var f := FromPairs(l);
    forall p | 0 <= p < |f| ensures TreeHeight(f[p].1) < TreeHeight(Forest(l)) {
      var q :| 0 <= q < |l| && l[q] == f[p];
      ChildIsLower(Forest(l), q);
    }
    HeightFromChildren(Forest(f), TreeHeight(Forest(l)));
  }

  /** The list `copy()` rebuilds from is no higher than the output it copies. */
  lemma CopiedChildrenNoHigher(t: Tree)
    ensures TreeHeight(Forest(CopiedChildren(t))) <= TreeHeight(t)
  {
    var l := CopiedChildren(t);
    forall p | 0 <= p < |l| ensures TreeHeight(l[p].1) < TreeHeight(t) {
      CopyNoHigher(t.possibleOutputs[p].1);
      ChildIsLower(t, p);
    }
    HeightFromChildren(Forest(l), TreeHeight(t));
  }

  /** Copying the children of a copy again leaves them as they are. */
  lemma CopiesStayCopies(t: Tree)
    ensures CopyPairs(FromPairs(CopiedChildren(t))) == FromPairs(CopiedChildren(t))
  {
    var l := CopiedChildren(t);
    var d := FromPairs(l);
    forall p | 0 <= p < |d| ensures CopyTree(d[p].1) == d[p].1 {
      var q :| 0 <= q < |l| && l[q] == d[p];
      CopyTreeIdempotent(t.possibleOutputs[q].1);
    }
  }

  /**
   * `out(names...)` on abstract trees (tx-tools.js:196-203): the child under the
   * first name (the key "undefined" when no name is given), then the child under
   * each further name; stepping on from a missing output is a TypeError.
   */
  function TreeOut(t: Tree, names: seq<string>): (r: Result<Option<Tree>, Failure>) {
    var first := Lookup(t.possibleOutputs, if |names| == 0 then "undefined" else names[0]);
    TreeSteps(first, if |names| == 0 then [] else names[1..])
  }

  function TreeSteps(cur: Option<Tree>, rest: seq<string>): (r: Result<Option<Tree>, Failure>)
    decreases |rest|
  {
    if rest == [] then Ok(cur)
    else if cur.None? then Err(PathThroughUndefined)
    else TreeSteps(Lookup(cur.value.possibleOutputs, rest[0]), rest[1..])
  }
}
