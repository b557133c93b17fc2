/**
 * `User` (tx-tools.js:69-119): a participant holding private state items
 * (secrets and signing keys) who signs outputs, gives items to other users and
 * sends outputs, all against one shared `GlobalState`.
 */
module Users {
  import opened Outcomes
  import opened Facts
  import opened Requirements
  import opened Arena
  import opened Ledger

  /** `verifyHasStateItem(state, item)` (tx-tools.js:109-111): the item must be truthy in the user's own state. */
  function VerifyHasStateItem(state: set<string>, item: string): (r: Outcome)
    ensures r == Pass <==> item in state
    ensures r.Fail? ==> r.error == MissingStateItem(item)
  {
    if item in state then Pass else Fail(MissingStateItem(item))
  }

  /**
   * What `sign` raises (tx-tools.js:90-96): first a missing item, then an item
   * that `getStateItemSuffix` does not call a key.
   */
  function SignVerdict(state: set<string>, item: string): (r: Outcome)
    ensures r == Pass <==> item in state && StateItemSuffix(item) == Some(KeySuffix)
    ensures item !in state ==> r == Fail(MissingStateItem(item))
    ensures item in state && !IsKey(item) ==> r == Fail(NotAKey(item))
  {
    if item !in state then Fail(MissingStateItem(item))
    else if !IsKey(item) then Fail(NotAKey(item))
    else Pass
  }

  class User {
    /** The ledger the user acts on (tx-tools.js:71). */
    const globalState: GlobalState
    /** The user's private state: the items it holds (tx-tools.js:73). */
    var state: set<string>

    /** A user of `globalState` holding nothing yet. */
    constructor (globalState: GlobalState)
      ensures this.globalState == globalState && state == {}
    {
      this.globalState := globalState;
      state := {};
    }

    /**
     * `getMergedState()` (tx-tools.js:81-85): the user's items overlaid with
     * the public state, the clock included. Reading changes nothing.
     */
    function GetMergedState(): (r: View)
      reads this, globalState
      ensures r.time == globalState.time
      ensures forall x :: x in r.facts <==> x in state || x in globalState.facts
    {
      View(globalState.time, MergeState(state, globalState.facts))
    }

    /**
     * `sign(spendingRequirement, outputs)` (tx-tools.js:90-96): a user that
     * holds a key signs the output with it. Only the user's private state is
     * consulted; on success the key is added to that output's signed state and
     * nothing else changes, on failure nothing changes.
     */
    method Sign(spendingRequirement: string, output: nat) returns (r: Outcome)
      requires globalState.Valid() && output < |globalState.outputs|
      modifies globalState
      ensures r == SignVerdict(state, spendingRequirement)
      ensures r.Pass? ==>
        var before := old(globalState.outputs);
        globalState.outputs == before[output := before[output].(state := before[output].state + {spendingRequirement})]
      ensures r.Fail? ==> globalState.outputs == old(globalState.outputs)
      ensures globalState.Valid()
      ensures globalState.time == old(globalState.time) && globalState.facts == old(globalState.facts)
    {
      r := VerifyHasStateItem(state, spendingRequirement);
      if r.Fail? {
        return;
      }
      if !IsKey(spendingRequirement) {
        return Fail(NotAKey(spendingRequirement));
      }
      var node := globalState.outputs[output];
      AbsUpdateNode(globalState.outputs, output, node.(state := node.state + {spendingRequirement}));
      globalState.outputs := globalState.outputs[output := node.(state := node.state + {spendingRequirement})];
    }

    /** `send(outputs)` (tx-tools.js:100-102): sends the output with the user's private state. */
    method Send(output: nat) returns (r: Outcome)
      requires globalState.Valid() && output < |globalState.outputs|
      modifies globalState
      ensures globalState.Valid() && globalState.time == old(globalState.time)
      ensures r == SendVerdict(old(globalState.outputs)[output], old(globalState.time), state, old(globalState.facts))
      ensures r.Pass? && |old(globalState.outputs)[output].requirements| > 0 ==>
        && globalState.outputs == Spend(old(globalState.outputs), output, old(globalState.time))
        && globalState.facts == old(globalState.facts) + Secrets(old(globalState.outputs)[output].requirements)
      ensures !(r.Pass? && |old(globalState.outputs)[output].requirements| > 0) ==>
        globalState.outputs == old(globalState.outputs) && globalState.facts == old(globalState.facts)
    {
      r := globalState.Send(output, state);
    }

    /**
     * `give(spendingRequirement, otherUser)` (tx-tools.js:104-107): a user
     * that holds an item hands it to another user and keeps it.
     */
    method Give(spendingRequirement: string, otherUser: User) returns (r: Outcome)
      modifies otherUser
      ensures r == VerifyHasStateItem(old(state), spendingRequirement)
      ensures r.Pass? ==> otherUser.state == old(otherUser.state) + {spendingRequirement}
      ensures r.Fail? ==> otherUser.state == old(otherUser.state)
      ensures state == old(state)
    {
      r := VerifyHasStateItem(state, spendingRequirement);
      if r.Pass? {
        otherUser.state := otherUser.state + {spendingRequirement};
      }
    }
  }

  /**
   * `globalState.User(stateItems)` and `User.init` (tx-tools.js:47-51,
   * 70-78, 113-118): the items are checked in order and the first one that
   * ends neither in "Secret" nor in "Key" is refused; otherwise the new user
   * holds exactly the given items.
   */
  method NewUser(stateItems: seq<string>, globalState: GlobalState) returns (r: Result<User, Failure>)
    ensures r.Err? <==> FirstBadName(stateItems).Some?
    ensures r.Err? ==> r.error == BadStateItemName(FirstBadName(stateItems).value)
    ensures r.Ok? ==> fresh(r.value) && r.value.globalState == globalState
    ensures r.Ok? ==> forall x :: x in r.value.state <==> x in stateItems
  {
    var user := new User(globalState);
    var i := 0;
    while i < |stateItems|
      invariant 0 <= i <= |stateItems|
      invariant forall j :: 0 <= j < i ==> IsValidItemName(stateItems[j])
      invariant forall x :: x in user.state <==> x in stateItems[..i]
      modifies user
    {
      if !IsValidItemName(stateItems[i]) {
        FirstBadNameAt(stateItems, i);
        return Err(BadStateItemName(stateItems[i]));
      }
      user.state := user.state + {stateItems[i]};
      assert stateItems[..i + 1] == stateItems[..i] + [stateItems[i]];
      i := i + 1;
    }
    assert stateItems[..i] == stateItems;
    r := Ok(user);
  }

  /**
   * A key the user signed an output with counts as met when that output is
   * sent, whoever sends it, provided the key's name does not read as a
   * timelock.
   */
  lemma SignedKeyIsMet(n: Node, key: string, time: int, userState: set<string>, publicFacts: set<string>)
    requires !StartsWith(key, AbsPrefix) && !StartsWith(key, RelPrefix)
    ensures !Unmet(key, n.confirmationTime, View(time, MergeState(MergeState(userState, n.state + {key}), publicFacts)))
  {
  }
}
