# ModelsTreeKit model tree, in Dafny

ModelsTreeKit organises an application as a tree of `Model` objects. Each
model is created under an optional parent, joins that parent's set of child
models and may later leave it again. A model:

- keeps a set of registered errors. `raiseError` delivers an error to the
  first model, starting at the raiser and going up the parent chain, that is
  registered for it. Without such a model the error is dropped.
- keeps an ordered list of session-event handlers, with at most one per event.
  `raiseSessionEvent` finds the nearest `Session` above the model, and from
  there `propagateEvent` calls every matching handler of the subtree,
  depth-first.

Errors are `(domain, code)` values compared by raw value. Bubble notifications
are `(name, domain, object)` values that compare name and domain.

The project has these modules:

- `Wrappers` (`wrappers.dfy`): `Option` and an opaque `Payload`, which stands
  for the `object:` argument.
- `SwiftInt` (`swift_int.dfy`): Swift's 64-bit `Int`, with trapping `+` and
  wrapping `&+`.
- `Errors` (`errors.dfy`): the `Error` struct, with its equality, its hash and
  its descriptions.
- `Bubbles` (`bubbles.dfy`): `BubbleNotificationName` and `BubbleNotification`.
- `ModelTree` (`model_tree.dfy`): the tree runtime. The class `Tree` is an
  arena of models.
  - Each model is an id handed out from a counter (`nextId`).
  - `models` maps every id to the model's mutable fields (`ModelState`): its
    parent, its child set, its registered errors, its handler list and whether
    it is a `Session`.
  - Two log fields record what the source sends elsewhere. `errorLog`
    records what each `errorSignal` is sent. `callLog` records every handler
    invocation.
  - `WellFormed` is the invariant every operation keeps:
    - ids are issued in order, and a parent's id is smaller than its child's;
    - every member of a child set names that model as its parent;
    - every handler list has at most one wrapper per event.
- `Scenarios` (`scenarios.dfy`): small trees built through the operations,
  with the outcome each one must have.

Model identity (`==` on `Model`, Model.swift:131-133) compares the unique
string each model is given at creation, so in the model it is equality of
ids. `NewModel` promises that each new id differs from every existing one.

Two points where the behaviour of the code is easy to misread, and where the
model follows the code:

- `session()` starts at the parent, so a `Session` is never its own session.
  The root `Session` itself gets `nil`, so a `raiseSessionEvent` on the
  root does nothing.
- `removeFromParent` only removes the model from its parent's child set. The
  model keeps its `parent` reference, so its errors still bubble up to its
  former parent. A broadcast no longer reaches it, because `propagateEvent`
  walks child sets.

## Model

| member | source | states |
|---|---|---|
| SwiftInt.WrappingAdd | ModelsTreeKit/Classes/Bubble/BubbleNotification.swift:26 | Swift's `&+` is the exact sum when it fits and is always congruent to it modulo 2^64 |
| SwiftInt.TrappingAgreesWithWrapping | ModelsTreeKit/Classes/Error/Error.swift:32 | where `+` does not trap it equals `&+` |
| Errors.EqualIffSameKey | ModelsTreeKit/Classes/Error/Error.swift:61-63 | two errors are `==` exactly when their code raw values and domain raw values are equal |
| Errors.EqualIsEquivalence | ModelsTreeKit/Classes/Error/Error.swift:61-63 | error `==` is reflexive, symmetric and transitive |
| Errors.EqualIgnoresTypeNames | ModelsTreeKit/Classes/Error/Error.swift:61-63 | which types conform to `ErrorDomain` and `ErrorCode` plays no part in `==` |
| Errors.HashValueAsWritten | ModelsTreeKit/Classes/Error/Error.swift:31-33 | `hashValue` as written returns a value exactly when code raw value plus domain string hash fits in an `Int`; otherwise it traps |
| Errors.HashValueAsWrittenTraps | ModelsTreeKit/Classes/Error/Error.swift:31-33 | a code of raw value `Int.max` in a domain with a positive string hash makes `hashValue` trap |
| Errors.EveryDomainHasTrappingCode | ModelsTreeKit/Classes/Error/Error.swift:31-33 | every domain whose string hash is not zero has a code whose error traps when hashed |
| Errors.HashValue | ModelsTreeKit/Classes/Error/Error.swift:31-33 | the wrapping hash is total and equals the source's value wherever the source does not trap |
| Errors.EqualErrorsHashEqual | ModelsTreeKit/Classes/Error/Error.swift:31-33 | `==` errors have equal hashes, both as written and corrected, so the hash reads only the two raw values |
| Errors.IntStringRoundTrip | ModelsTreeKit/Classes/Error/Error.swift:52 | the decimal rendering of an `Int` in string interpolation reads back as that `Int` |
| Errors.DescriptionRoundTrip | ModelsTreeKit/Classes/Error/Error.swift:51-53 | `descriptionString` is the domain raw value, a dot and the code's decimal digits; the domain raw value and the code raw value can be read back from it |
| Errors.EqualIffSameDescription | ModelsTreeKit/Classes/Error/Error.swift:51-53 | two errors are `==` exactly when their `descriptionString`s are equal |
| Errors.FullDescription | ModelsTreeKit/Classes/Error/Error.swift:43-49 | `fullDescription` starts with a text from which the error's domain raw value and code raw value are read back, followed by `": "` and the localization |
| Errors.EqualErrorsDescribedAlike | ModelsTreeKit/Classes/Error/Error.swift:43-49 | `==` errors have the same `fullDescription` under any localization table |
| Bubbles.NameEqualIgnoresTypeName | ModelsTreeKit/Classes/Bubble/BubbleNotification.swift:17-19 | two notification names are `==` exactly when their raw values are equal, whatever their conforming types |
| Bubbles.MakeWithoutObject | ModelsTreeKit/Classes/Bubble/BubbleNotification.swift:28-32 | leaving out `object` gives `nil`, and stores name and domain unchanged |
| Bubbles.EqualIsEquivalence | ModelsTreeKit/Classes/Bubble/BubbleNotification.swift:40-42 | notification `==` is reflexive, symmetric and transitive |
| Bubbles.EqualIgnoresPayload | ModelsTreeKit/Classes/Bubble/BubbleNotification.swift:40-42 | changing the `object` of a notification never changes the outcome of `==` |
| Bubbles.HashDependsOnNameOnly | ModelsTreeKit/Classes/Bubble/BubbleNotification.swift:26 | notifications whose names have the same raw value hash equal, whatever their domains and objects |
| Bubbles.EqualNotificationsHashEqual | ModelsTreeKit/Classes/Bubble/BubbleNotification.swift:26 | `==` notifications hash equal |
| ModelTree.CreateKeepsWellFormed | ModelsTreeKit/Classes/Model/Model.swift:27-30 | adding a fresh model, under an existing parent or none, keeps the arena invariant |
| ModelTree.AddChildKeepsWellFormed | ModelsTreeKit/Classes/Model/Model.swift:40-42 | adding to a child set a model that names that parent keeps the invariant |
| ModelTree.RemoveChildKeepsWellFormed | ModelsTreeKit/Classes/Model/Model.swift:44-47 | removing any model from a child set keeps the invariant |
| ModelTree.Tree.NewModel | ModelsTreeKit/Classes/Model/Model.swift:27-30 | `init(parent:)` gives a model a new id and records its parent. The model joins exactly that parent's child set, with no registrations or handlers. No other model changes |
| ModelTree.Tree.ChildModels | ModelsTreeKit/Classes/Model/Model.swift:36-38 | `childModels()` returns the child set; each member names the model as parent and was created after it |
| ModelTree.Tree.AddChild | ModelsTreeKit/Classes/Model/Model.swift:40-42 | `addChild` inserts into the parent's child set and changes nothing else |
| ModelTree.Tree.RemoveChild | ModelsTreeKit/Classes/Model/Model.swift:44-47 | `removeChild` deletes from the child set only; removing a model that is not a child changes nothing |
| ModelTree.Tree.RemoveFromParent | ModelsTreeKit/Classes/Model/Model.swift:49-51 | `removeFromParent` removes the model from its parent's child set only. It is a no-op without a parent and idempotent. Afterwards no child set holds the model, and its own children and `parent` stay |
| ModelTree.Tree.Session | ModelsTreeKit/Classes/Model/Model.swift:55-61 | `session()` is the nearest `Session` among the strict ancestors, or none when no ancestor is a `Session` |
| ModelTree.Tree.IsRegisteredForError | ModelsTreeKit/Classes/Model/Model.swift:81-83 | `isRegisteredForError(e)` holds exactly when some registered error is `==` to `e` |
| ModelTree.Tree.RegisterForError | ModelsTreeKit/Classes/Model/Model.swift:67-69 | afterwards `e` is registered, and a second call changes nothing. Every registration other than those `==` to `e` on this model is unchanged |
| ModelTree.Tree.UnregisterFromError | ModelsTreeKit/Classes/Model/Model.swift:77-79 | afterwards `e` is not registered, and a second call changes nothing. Every registration other than those `==` to `e` on this model is unchanged |
| ModelTree.CodeKeysAreTheCodesKeys | ModelsTreeKit/Classes/Model/Model.swift:72-74 | the keys the loop adds one code at a time are exactly the errors `Error(domain, c)` for `c` in the codes |
| ModelTree.Tree.RegisterForErrorCodes | ModelsTreeKit/Classes/Model/Model.swift:71-75 | the registered set grows by exactly the errors `Error(domain, c)` for the `c` in `codes`, and each of those errors is then registered |
| ModelTree.Tree.ErrorTarget | ModelsTreeKit/Classes/Model/Model.swift:85-91 | the target of a raise is the nearest member of the chain (the model, its parent, …) registered for the error; none means no member of the chain is registered |
| ModelTree.Tree.RaiseError | ModelsTreeKit/Classes/Model/Model.swift:85-91 | `raiseError` appends exactly one delivery, to the target, or nothing when there is none. It always terminates |
| ModelTree.Without | ModelsTreeKit/Classes/Model/Model.swift:102-104 | the `filter` keeps exactly the wrappers for other events, in their original relative order |
| ModelTree.WithoutCounts | ModelsTreeKit/Classes/Model/Model.swift:102-104 | the `filter` drops every wrapper for the event and keeps every other wrapper as many times as the list holds it |
| ModelTree.WithoutKeepsOneWrapperPerEvent | ModelsTreeKit/Classes/Model/Model.swift:102-104 | filtering keeps the list at one wrapper per event |
| ModelTree.Tree.UnregisterFromEvent | ModelsTreeKit/Classes/Model/Model.swift:102-104 | `unregisterFromEvent` replaces the list by its filtered version; afterwards no handler is registered for the event |
| ModelTree.RegisterLeavesOneEntry | ModelsTreeKit/Classes/Model/Model.swift:97-100 | after `registerForEvent(ev, h)` the last wrapper is `(ev, h)` and it is the only one for `ev`. The others are the old wrappers of other events, in order |
| ModelTree.RegisterKeepsOneWrapperPerEvent | ModelsTreeKit/Classes/Model/Model.swift:97-100 | registering keeps the list at one wrapper per event |
| ModelTree.Tree.RegisterForEvent | ModelsTreeKit/Classes/Model/Model.swift:97-100 | `registerForEvent` filters out the event's wrappers, then appends the new one; the handler for the event is then `h` |
| ModelTree.NoWrapperNoCalls | ModelsTreeKit/Classes/Model/Model.swift:111-115 | a model with no wrapper for the event calls nothing |
| ModelTree.LocalCallsOfHandler | ModelsTreeKit/Classes/Model/Model.swift:111-115 | with one wrapper per event, the first loop calls the model's handler for the event once, or nothing when it has none |
| ModelTree.Tree.CallOwnHandlers | ModelsTreeKit/Classes/Model/Model.swift:111-115 | the first loop of `propagateEvent` appends one call per wrapper of the event, in list order |
| ModelTree.CallsAtAreHandlerCalls | ModelsTreeKit/Classes/Model/Model.swift:110-120 | a call belongs to the expected calls of a set of models exactly when it is to one of them, with that model's handler for the event and with the given object |
| ModelTree.AppendsChain | ModelsTreeKit/Classes/Model/Model.swift:117-119 | two successive broadcasts to disjoint sets of models together make one broadcast to their union |
| ModelTree.SubtreeDescends | ModelsTreeKit/Classes/Model/Model.swift:117-119 | every model reached through child sets from `r` reaches `r` by following `parent` |
| ModelTree.SiblingsShareNoDescendant | ModelsTreeKit/Classes/Model/Model.swift:23-30 | no model descends from two different children of the same parent |
| ModelTree.SiblingSubtreesDisjoint | ModelsTreeKit/Classes/Model/Model.swift:117-119 | the subtrees of different children of a model do not overlap, so no model is visited twice |
| ModelTree.ChildStep | ModelsTreeKit/Classes/Model/Model.swift:117-119 | one more iteration of the child loop extends the broadcast to that child's subtree |
| ModelTree.ChildTurn | ModelsTreeKit/Classes/Model/Model.swift:117-119 | one more iteration of the child loop appends that child's complete depth-first log after those of the children before it |
| ModelTree.Tree.PropagateToChildren | ModelsTreeKit/Classes/Model/Model.swift:117-119 | the second loop of `propagateEvent` calls, once each, exactly the handlers for the event of the children's subtrees. It serves the children one after the other, each child's whole subtree before the next child |
| ModelTree.BroadcastOfParts | ModelsTreeKit/Classes/Model/Model.swift:110-120 | the model's own calls followed by its children's broadcasts make a broadcast over its subtree |
| ModelTree.DepthFirstOfParts | ModelsTreeKit/Classes/Model/Model.swift:110-120 | the model's own calls followed by its children's logs in turn make a depth-first log from the model |
| ModelTree.Tree.PropagateEvent | ModelsTreeKit/Classes/Model/Model.swift:110-120 | `propagateEvent` from `r` appends exactly the calls of the subtree's models to their handlers for the event, each once, with the given object. The order is depth-first: `r`'s own calls, then each child's complete log in turn |
| ModelTree.BroadcastCallsEachHandlerOnce | ModelsTreeKit/Classes/Model/Model.swift:110-120 | in a broadcast, every handler for the event in the subtree is called exactly once. Every call made is to such a handler, with the given object |
| ModelTree.Tree.RaiseSessionEvent | ModelsTreeKit/Classes/Model/Model.swift:106-108 | `raiseSessionEvent` makes a depth-first broadcast from `session()`, and does nothing when there is no session |
| Scenarios.ErrorBubblesToParent | ModelsTreeKit/Classes/Model/Model.swift:85-91 | an error raised by a child, registered only by its parent, is delivered once, to the parent |
| Scenarios.ErrorStopsAtRaiser | ModelsTreeKit/Classes/Model/Model.swift:85-91 | registration on the raiser stops bubbling there, even when the parent is registered too |
| Scenarios.UnregisteredErrorIsDropped | ModelsTreeKit/Classes/Model/Model.swift:77-91 | after `unregisterFromError` the error is dropped at the root, with no delivery |
| Scenarios.DetachedModelStillBubbles | ModelsTreeKit/Classes/Model/Model.swift:49-51 | a model removed from its parent is no longer a child, yet its errors still reach the former parent |
| Scenarios.SessionIsStrictAncestor | ModelsTreeKit/Classes/Model/Model.swift:55-61 | the root `Session` has no session; the nested `Session` has the root; a model below it has the nested one |
| Scenarios.SecondRegistrationReplacesFirst | ModelsTreeKit/Classes/Model/Model.swift:97-104 | registering a second handler for an event removes the first; the new wrapper comes last |
| Scenarios.BroadcastToOnlyHandler | ModelsTreeKit/Classes/Model/Model.swift:110-120 | a broadcast over a session with one child holding one handler calls that handler exactly once and nothing else |
| Scenarios.SubtreeServedWholeIsDepthFirst | ModelsTreeKit/Classes/Model/Model.swift:110-120 | in the tree `0 -> {1, 2}`, `1 -> {3}`, serving 0, 1, 3, 2 is a depth-first order |
| Scenarios.SplitSubtreeIsNotDepthFirst | ModelsTreeKit/Classes/Model/Model.swift:110-120 | in the same tree, serving 0, 1, 2, 3 is not, because it serves 2 inside the subtree of 1 |
| Scenarios.EventReachesHandlerOnce | ModelsTreeKit/Classes/Model/Model.swift:106-120 | a child's session event reaches the child's own handler through the session, exactly once |

## Left out

- The `representation` property and its `didSet` (Model.swift:12-18), and deallocation. These depend on ARC and on the deinit signal. Detachment happens only through an explicit `RemoveFromParent`, and ids are never reused.
- Weak references and `globallyUniqueString` (Model.swift:23, 25). Models are ids from a counter, and `parent` is an explicit optional id that is never cleared.
- `Signal` and `AutodisposePool` are not part of this model. `errorSignal.sendNext` is an append to `errorLog`, and subscribers are not modelled.
- Tree printing (Model.swift:135 onwards) and the `printSessionTree()` call in `removeChild`. They only write debug output to the console.
- Handler closure bodies. A handler is an opaque `HandlerId` whose invocation is appended to `callLog`. Handlers that raise events or change the tree while a broadcast runs are not modelled.
- `NSLocalizedString` is the parameter `localize`, and Swift's `String.hashValue` is the parameter `strHash`. Neither is interpreted.
- `Model.hashValue` (Model.swift:124-128). It serves only to put models into child sets, which are sets of ids here.
- The `ErrorCodesList` protocol (Error.swift:11-15). Nothing in the tree uses it.
- The `Session` class is not part of this model beyond being a kind of model. It is the `isSession` flag, fixed at creation.
- `SessionEvent` is not part of this model's source files. It is a `(name, domain)` value with structural equality, in the style of `BubbleNotification`.
- ModelTree.Tree.RaiseError: `raiseError` (Model.swift:85) is the one public method of `Model` that is not `final`, so a subclass such as `Session` may override it and bubble errors differently. Overrides are not modelled: every model in the chain runs the body at Model.swift:85-91.
- ModelTree.Tree.RegisterForError: the registry stores only the key that `==` and `hashValue` look at, so which of two `==` errors the source's set keeps is not modelled.
- ModelTree.Tree.RegisterForError, ModelTree.Tree.IsRegisteredForError, ModelTree.Tree.RaiseError: these never trap. The source hashes the error in `registeredErrors.insert` and `contains` (Model.swift:68, 82), and that hash can trap (see Findings). The model uses the total, corrected behaviour.
- Errors.Equal: raw values are compared as sequences of characters. Swift's `String` `==` also equates canonically equivalent strings, e.g. `"é"` as one code point and as `e` plus a combining accent. Such errors are `==` in Swift but not in the model.
- Errors.Key: the same applies to the registry keys, and so to `ModelTree.Tree.IsRegisteredForError` and `ModelTree.Tree.RaiseError`. An error registered with one form of a domain string is not found when raised with a canonically equivalent but different form.
- Bubbles.NameEqual: a name's raw value is compared character by character, not by canonical equivalence as Swift does.
- Bubbles.Equal: the same holds for the name and for the domain string.
- ModelTree.Tree.PropagateToChildren: child sets are iterated in an unspecified order, which the model leaves as a nondeterministic choice. `DepthFirst` accepts every order of the children. It does not fix the one Swift's `Set` would produce.
- ModelTree.Tree.PropagateEvent: the two `for` loops of `propagateEvent` are the two methods `CallOwnHandlers` and `PropagateToChildren`. The tree cannot change during a broadcast, so the copy of the child set taken by `childModels()` equals the live set.

## Findings

| source | as written | input that shows it | evidently intended | confidence | as-written member | corrected member |
|---|---|---|---|---|---|---|
| ModelsTreeKit/Classes/Error/Error.swift:31-33 | `hashValue` adds the code's raw value and the domain's string hash with Swift's trapping `+` | a code with raw value `Int.max` in a domain whose string hash is positive: the addition overflows and the program stops the first time the error is hashed, e.g. by `registerForError` or `isRegisteredForError` | a total hash, computed with the wrapping `&+` that `BubbleNotification.hashValue` uses | low, not executed | Errors.HashValueAsWritten, Errors.HashValueAsWrittenTraps | Errors.HashValue |

The rest of the model uses the corrected, total behaviour. Registering and
looking up any error always succeeds, since registries are sets of
`ErrorKey`, the two raw values that `==` and the corrected hash read
(`Errors.EqualErrorsHashEqual`).
