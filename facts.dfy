/**
 * Names of state items. A user's state item is a fact named by a string whose
 * suffix says what kind of fact it is: a name ending in "Secret" is a secret
 * (revealed to everyone once it is used to spend), a name ending in "Key" is a
 * signing key (tx-tools.js:326-329). A user may only be created holding items
 * with one of these two suffixes (tx-tools.js:113-118).
 */
module Facts {
  import opened Outcomes

  datatype Suffix = SecretSuffix | KeySuffix

  /** JavaScript's `s.slice(-n)` for n > 0: the last n characters, or all of `s` when it is shorter. */
  function SliceLast(s: string, n: nat): (r: string)
    requires n > 0
    ensures |r| == if |s| < n then |s| else n
    ensures r == s[|s| - |r|..]
  {
    if |s| < n then s else s[|s| - n..]
  }

  predicate EndsWith(s: string, tail: string) {
    |tail| <= |s| && s[|s| - |tail|..] == tail
  }

  /**
   * `getStateItemSuffix`: the "Secret" test comes first, so a name ending in
   * "Secret" is a secret even if some longer reading would also end in "Key".
   */
  function StateItemSuffix(name: string): (r: Option<Suffix>)
    ensures r == Some(SecretSuffix) <==> EndsWith(name, "Secret")
    ensures r == Some(KeySuffix) <==> !EndsWith(name, "Secret") && EndsWith(name, "Key")
    ensures r == None <==> !EndsWith(name, "Secret") && !EndsWith(name, "Key")
  {
    if SliceLast(name, 6) == "Secret" then Some(SecretSuffix)
    else if SliceLast(name, 3) == "Key" then Some(KeySuffix)
    else None
  }

  /** A secret: `getStateItemSuffix` answers 'Secret' (see its contract). */
  predicate IsSecret(name: string) {
    EndsWith(name, "Secret")
  }

  /** A key: `getStateItemSuffix` answers 'Key' (see its contract). */
  predicate IsKey(name: string) {
    !EndsWith(name, "Secret") && EndsWith(name, "Key")
  }

  /** `verifyStateItemName_` accepts exactly the names `getStateItemSuffix` gives a suffix. */
  predicate IsValidItemName(name: string) {
    EndsWith(name, "Secret") || EndsWith(name, "Key")
  }

  /** Any identifier followed by "Secret" names a secret. */
  lemma SecretNameIsSecret(id: string)
    ensures IsSecret(id + "Secret")
  {
    var name := id + "Secret";
    assert name[|name| - 6..] == "Secret";
  }

  /** Any identifier followed by "Key" names a key: such a name cannot also end in "Secret". */
  lemma KeyNameIsKey(id: string)
    ensures IsKey(id + "Key")
  {
    var name := id + "Key";
    assert name[|name| - 3..] == "Key";
    assert !EndsWith(name, "Secret") by {
      assert name[|name| - 1] == 'y';
      assert |name| >= 6 ==> name[|name| - 6..][5] == name[|name| - 1];
    }
  }

  /** Conversely every secret (key) name is some identifier followed by "Secret" ("Key"). */
  lemma SuffixSplitsName(name: string)
    ensures IsSecret(name) ==> |name| >= 6 && name == name[..|name| - 6] + "Secret"
    ensures IsKey(name) ==> |name| >= 3 && name == name[..|name| - 3] + "Key"
  {
    if IsSecret(name) {
      assert name == name[..|name| - 6] + name[|name| - 6..];
    }
    if IsKey(name) {
      assert name == name[..|name| - 3] + name[|name| - 3..];
    }
  }

  /**
   * `mergeState(target, stateToMergeIn)` (tx-tools.js:331-337): every entry of
   * `stateToMergeIn` that is neither `false` nor `undefined` is written into
   * `target`. The engine only ever writes `true` into fact maps, so no entry is
   * skipped, and both callers merge into a fresh copy, so the merge is a value.
   */
  function MergeState(target: set<string>, stateToMergeIn: set<string>): (r: set<string>)
    ensures target <= r && stateToMergeIn <= r
    ensures forall x :: x in r ==> x in target || x in stateToMergeIn
  {
    target + stateToMergeIn
  }

  /**
   * The item `User.init` throws on, as the loop meets it: when every earlier
   * item is valid and this one is not, it is the first bad name.
   */
  lemma FirstBadNameAt(items: seq<string>, i: nat)
    requires i < |items| && !IsValidItemName(items[i])
    requires forall j :: 0 <= j < i ==> IsValidItemName(items[j])
    ensures FirstBadName(items) == Some(items[i])
  {
    var r := FirstBadName(items);
    var k :| 0 <= k < |items| && items[k] == r.value && !IsValidItemName(r.value)
             && forall j :: 0 <= j < k ==> IsValidItemName(items[j]);
    assert k == i;
  }

  /**
   * The item on which `User.init` throws: the first item, in order, whose name
   * is not valid; None when every item is valid.
   */
  function FirstBadName(items: seq<string>): (r: Option<string>)
    ensures r == None <==> forall i :: 0 <= i < |items| ==> IsValidItemName(items[i])
    ensures r.Some? ==> exists k :: 0 <= k < |items| && items[k] == r.value && !IsValidItemName(r.value)
                                   && forall i :: 0 <= i < k ==> IsValidItemName(items[i])
  {
    if items == [] then None
    else if !IsValidItemName(items[0]) then Some(items[0])
    else
      var rest := FirstBadName(items[1..]);
      assert forall i :: 1 <= i < |items| ==> items[i] == items[1..][i - 1];
      if rest.Some? then
        var k' :| 0 <= k' < |items[1..]| && items[1..][k'] == rest.value && !IsValidItemName(rest.value)
                  && forall i :: 0 <= i < k' ==> IsValidItemName(items[1..][i]);
        assert items[k' + 1] == rest.value;
        assert forall i :: 0 <= i < k' + 1 ==> IsValidItemName(items[i]) by {
          forall i | 0 <= i < k' + 1 ensures IsValidItemName(items[i]) {
            if i > 0 { assert items[i] == items[1..][i - 1]; }
          }
        }
        rest
      else
        rest
  }
}
