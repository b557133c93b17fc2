# Symbolic spend trees of `tx-tools.js`, in Dafny

`tx-tools.js` is a small engine for writing out transaction protocols as trees of
spend paths and trying them out. It has three kinds of objects:

- **`GlobalState`.** A shared ledger. It holds a clock (`state.time`), the facts made
  public (revealed secrets, items set by hand) and a registry of every output it creates.
- **`OutputClass`.** A spend-path node. Each one has:
  - an ordered list of requirement strings;
  - its own "signed" state;
  - a confirmation time, possibly unset;
  - a `spent` flag;
  - its children, keyed by path name.
- **`User`.** A participant. Each one has private state items (names ending in "Secret" or
  "Key") and can `sign` outputs with keys, `give` items to other users and `send` outputs.

The heart of the engine is `send`. It refuses an unconfirmed or spent output. Otherwise it
evaluates every requirement against three sources merged together: the sender's items,
the output's signed state and the public state. Each requirement is one of:

- `absTimelock(t)`: an absolute time;
- `timelock(d)`: a delay after the output's confirmation;
- anything else: a fact name.

When nothing is left unmet and the output has at least one requirement, `send` does three
things:

- it reveals the secrets among the requirements;
- it stamps each child with the current time as its confirmation time;
- it marks the output spent.

These writes sit inside the loop over the requirements (`tx-tools.js:178-188`). An output
with no requirements therefore passes `send` and nothing is written: it stays unspent and
its children stay unconfirmed.

## How the model is laid out

| file | module | what it holds |
|---|---|---|
| `outcomes.dfy` | `Outcomes` | `Option`, `Result`, and one `Failure` per `throw` of the engine |
| `facts.dfy` | `Facts` | `getStateItemSuffix`, `mergeState`, item-name validation |
| `requirements.dfy` | `Requirements` | classifying requirement strings, `getRemainingRequirements` as a filter |
| `ordered_maps.dfy` | `OrderedMaps` | JavaScript objects keyed by strings, in insertion order |
| `trees.dfy` | `Trees` | the value of an output and its descendants, and what `copy()` makes of it |
| `arena.dfy` | `Arena` | the registry of outputs, its well-formedness, and what `send` and `out` do to it |
| `ledger.dfy` | `Ledger` | `class GlobalState` with the methods of `OutputClass` that change outputs |
| `users.dfy` | `Users` | `class User` |

Every output lives in the registry `GlobalState.outputs` (`tx-tools.js:44, 55`). An output
object is therefore its position in that sequence, and an `OutputClass` method becomes a
`GlobalState` method that takes the position. Outputs are always registered after their
children, so a child's position is below its parent's (`Arena.ValidArena`).

The methods that create outputs are proved against `Arena.Abs`. It reads an output and
everything reachable from it as a `Trees.Tree` value. `Output` and `copy()` are specified
as the tree they register, and `Grew` states that they only append to the registry.

Fact maps (`state` objects) are sets of strings: the engine only ever writes `true` into
them. The clock is kept apart from those sets, in `GlobalState.time` and `View.time`.

Objects keyed by path name are sequences of entries with JavaScript's assignment rule: a
key that is already present keeps its position and takes the new value, later entries win.

Each `throw` becomes a returned `Failure`. A method that fails returns before writing
anything, as the source throws before writing anything.

One scenario disagrees with the code. One would expect the following to work: spend a
parent at time 0, let 100 units pass, then send a child that sits behind `timelock(100)`.
The code tests `!this.confirmationTime` (`tx-tools.js:232`), so confirmation time 0
counts as unconfirmed, and that send is refused. A child of an output spent at time 0
cannot meet a relative timelock until it is confirmed again at a non-zero time, with
`confirmed()` (`tx-tools.js:144-147`). The model follows the code;
`Arena.SpendAtZeroStrandsRelativeLocks` proves the consequence.

## Model

| member | source | states |
|---|---|---|
| Facts.StateItemSuffix | tx-tools.js:326-329 | 'Secret' exactly when the name ends in "Secret"; otherwise 'Key' exactly when it ends in "Key"; otherwise nothing |
| Facts.SecretNameIsSecret | tx-tools.js:326-327 | every identifier followed by "Secret" is a secret |
| Facts.KeyNameIsKey | tx-tools.js:326-328 | every identifier followed by "Key" is a key: such a name cannot also be read as a secret |
| Facts.SuffixSplitsName | tx-tools.js:326-329 | conversely, a secret or key name is an identifier followed by its suffix |
| Facts.MergeState | tx-tools.js:331-337 | the merged state holds the target's entries and the merged-in entries, and nothing else |
| Facts.FirstBadName | tx-tools.js:70-78 | the first item, in order, whose name has neither suffix; None exactly when every item is valid |
| Facts.FirstBadNameAt | tx-tools.js:74-77 | when every item before position i is valid and item i is not, item i is the one `User.init` throws on |
| Users.NewUser | tx-tools.js:47-51 | creating a user fails exactly when some item has neither suffix, naming the first such item; otherwise the fresh user holds exactly the given items and uses the given ledger |
| Users.User.GetMergedState | tx-tools.js:81-85 | the merged view has the ledger's clock and holds exactly the user's items and the public facts |
| Users.VerifyHasStateItem | tx-tools.js:109-111 | passes exactly when the user's own state holds the item, else fails naming the item |
| Users.SignVerdict | tx-tools.js:90-95 | `sign` passes exactly when the user holds the item and `getStateItemSuffix` calls it a key; a missing item is reported before a non-key |
| Users.User.Sign | tx-tools.js:90-96 | on success only the target output's signed state gains the item; on failure nothing changes; the clock and public facts never change |
| Users.SignedKeyIsMet | tx-tools.js:235 | once an output carries a signature, that requirement is met for every sender (unless the name reads as a timelock) |
| Users.User.Send | tx-tools.js:100-102 | sending as a user is `send` with the user's private state |
| Users.User.Give | tx-tools.js:104-107 | the receiver gains the item exactly when the giver holds it; the giver keeps its items |
| Requirements.Classify | tx-tools.js:225-235 | a requirement is an absolute timelock exactly when it starts with "absTimelock(", a relative one exactly when it starts with "timelock(" but not the former, otherwise a fact named by the whole string |
| Requirements.ClassifyRender | tx-tools.js:225-235 | reading a requirement literal gives back the requirement it was written for |
| Requirements.ParseIntOfDecimal | tx-tools.js:226 | `parseInt` reads back every timelock argument written in decimal |
| Requirements.RemainingMembers | tx-tools.js:222-240 | a requirement is reported exactly when it is one of the output's requirements and it is unmet |
| Requirements.RemainingAppend | tx-tools.js:223-239 | requirements are reported in their original order |
| Requirements.RemainingEmpty | tx-tools.js:222-240 | nothing is reported exactly when every requirement holds |
| Requirements.UnmetAntitone | tx-tools.js:225-237 | a later clock and more facts never make a requirement unmet |
| Requirements.RemainingAntitone | tx-tools.js:222-240 | what is unmet at a later time with more facts was unmet before |
| Requirements.RelLockNeedsNonZeroConfirmation | tx-tools.js:232 | `timelock(d)` is unmet on an output that has no confirmation time or was confirmed at 0, at any time |
| Requirements.RelLockMetFrom | tx-tools.js:232 | with a non-zero confirmation time c, `timelock(d)` is met exactly from time c + d on |
| Requirements.AbsLockMetFrom | tx-tools.js:227 | `absTimelock(t)` is met exactly from time t on |
| Arena.GetRemainingRequirements | tx-tools.js:222-240 | the loop returns exactly the unmet requirements in order, and changes nothing |
| Arena.SendPassesIff | tx-tools.js:149-190 | `send` succeeds exactly when the output is confirmed and unspent and every requirement holds against the sender's items, the signed state and the public state merged |
| Arena.SendReportsUnmet | tx-tools.js:189-190 | a send refused for its requirements names exactly the unmet ones |
| Arena.EmptyRequirementsPass | tx-tools.js:177-188 | a confirmed, unspent output with no requirements is always "sent" |
| Arena.SecretsMembers | tx-tools.js:180-182 | a send reveals exactly the requirements that end in "Secret" |
| Arena.SpendChanges | tx-tools.js:183-187 | a spend marks the output spent, stamps each child's confirmation time, and changes no other output |
| Arena.SpentRejectsLaterSends | tx-tools.js:153-155 | once spent, an output rejects every later send, whatever the clock and the facts |
| Arena.SpendAtZeroStrandsRelativeLocks | tx-tools.js:232 | a child behind a relative timelock of an output spent at time 0 cannot be sent, at any later time, until it is confirmed again |
| Arena.UpdateKeepsLaterOutputs | tx-tools.js:136 | signing or confirming an output leaves unchanged every output made by a later call (the copies `Output` and `copy()` take of it) |
| Arena.UpdateLaterKeepsOlder | tx-tools.js:136 | and the other way round: signing or confirming an output made by a later call (a copy, or an output holding copies) leaves every output registered before that call unchanged |
| Arena.SpendKeepsLaterOutputs | tx-tools.js:136 | spending an output leaves unchanged every output made by a later call (the copies `Output` and `copy()` take of it) |
| Arena.SpendLaterKeepsOlder | tx-tools.js:136 | and the other way round: spending an output made by a later call leaves every output registered before that call unchanged |
| Arena.WalkMatchesTree | tx-tools.js:196-203 | walking the registry by names reaches the outputs the tree has at those paths, a step through a missing output failing |
| Trees.CopyTreeIdempotent | tx-tools.js:205-210 | copying a copy gives the same tree |
| Trees.CopyNoHigher | tx-tools.js:205-210 | a copy is no deeper than the original |
| OrderedMaps.LookupPut | tx-tools.js:307 | after `obj[k] = v`, `obj[k]` is v and every other key reads as before |
| OrderedMaps.LookupFromPairs | tx-tools.js:303-315 | an object built by successive assignments holds, under each key, the value of the last assignment to it |
| OrderedMaps.FromDistinctPairs | tx-tools.js:295-301 | rebuilding an object whose keys are distinct gives it back in the same order |
| Ledger.GlobalState.constructor | tx-tools.js:41-45 | a new ledger is at time 0, with no public facts and no outputs |
| Ledger.GlobalState.Set | tx-tools.js:60-62 | the item becomes a public fact; nothing else changes |
| Ledger.GlobalState.TimePasses | tx-tools.js:64-66 | the clock moves by exactly the amount, even a negative one; nothing else changes |
| Ledger.GlobalState.Output | tx-tools.js:53-57 | the new output is registered last, after every output it created; it is unconfirmed, unspent, unsigned, and its children are copies of the ones given, later names winning; no existing output changes |
| Ledger.GlobalState.CreateSpendPathMap | tx-tools.js:303-315 | the map holds each given output under its name and each bare requirement list as a new anonymous output under "Anywhere", later entries winning |
| Ledger.GlobalState.MapPossibleOutput | tx-tools.js:305-313 | one element more: an output goes under its name, a requirement list becomes a new anonymous output under "Anywhere", and the map still holds the elements so far, later ones winning |
| Ledger.GlobalState.CopyOutputPaths | tx-tools.js:295-301 | the result has the same path names in the same order, each holding a new copy of the output it held |
| Ledger.CreateSpendPathList | tx-tools.js:317-323 | the list holds the map's outputs in path order |
| Ledger.GlobalState.Copy | tx-tools.js:205-210 | the copy has the same name, requirements and signed state, no confirmation time, not spent, and copies of the children; no existing output changes |
| Ledger.GlobalState.Confirmed | tx-tools.js:144-147 | the confirmation time becomes the current time, overwriting any earlier one; nothing else changes |
| Ledger.GlobalState.Send | tx-tools.js:149-192 | the verdict checks, in order: confirmed, then unspent, then no unmet requirements. On success with requirements, the secrets among them are revealed, the children are confirmed now and the output is spent. On failure, or with no requirements, nothing changes |
| Ledger.GlobalState.SpendPath | tx-tools.js:178-188 | the per-requirement loop reveals the secrets, confirms the children and marks the output spent, and does nothing when there are no requirements |
| Ledger.GlobalState.ConfirmChildren | tx-tools.js:183-186 | every child gets the current time as its confirmation time |
| Ledger.GlobalState.Out | tx-tools.js:196-203 | the output reached by the given names (the key "undefined" with no names), None for a missing one, failing on a step through a missing output |

## Left out

- `print` (tx-tools.js:242-293) only writes to the console.
- The `stateProxy` built in `send` (tx-tools.js:161-174) is never used.
- `requirementsFulfilled` (tx-tools.js:212-219) is never called.
- `proto` (tx-tools.js:1) is replaced by Dafny classes.
- The scenario scripts under `Sucinct-Atomic-Swaps/` only drive the engine and print.
- Facts.MergeState: the filter on `false` and `undefined` entries is not modelled, because the engine only ever writes `true` into fact maps.
- Users.User.GetMergedState: in the source the clock would overwrite a user item named "time" in the merged view, because the public state is merged in last; here the clock is kept apart. Valid item names end in "Secret" or "Key", so no user item can be named "time".
- The public state and the clock share one JavaScript object in the source. A fact named "time" set by hand through `set` is not modelled as overwriting the clock.
- Requirements.Unmet: a requirement named "time" is not modelled as reading the clock. In the source `!state["time"]` (tx-tools.js:235) makes it met at any non-zero time; here it is an ordinary fact, unmet unless a fact of that name is held.
- Keys that JavaScript orders first (integer-like names such as "1") and keys inherited from `Object.prototype` are not modelled. Path names are ordered by insertion only.
- `parseInt` of a timelock argument reads its leading decimal digits, or NaN when there are none. Signs, leading whitespace, other radixes and fractional input are not modelled.
- Times are unbounded integers, not JavaScript doubles.
- Passing `possibleOutputs` that belong to another `GlobalState`, or elements that are neither an output nor an array, is not modelled: `Output` requires outputs already in this registry.
- Users.User.Sign: the source signs any object it is given; here the output must be in this registry.
- Ledger.GlobalState.Send, Users.User.Send, Ledger.GlobalState.Confirmed, Ledger.GlobalState.Copy: each requires an output in this registry. The source also lets them be called on the `undefined` that `out()` returns for a missing name, where they throw a `TypeError`; that error is not modelled.
