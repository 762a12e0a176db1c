# didact-clone fiber reconciler, modelled in Dafny

This project models the renderer in `src/didact.tsx` of didact-clone, a small
React-like library, and proves properties of that model. The renderer has six
parts:

- **element construction**: `createElement` and `createTextElement`;
- **the positional child diff**: `reconcileChildren`;
- **the cursor and the work loop**: `performUnitOfWork`, `updateHostComponent`,
  `updateFunctionComponent`, `workloop` and `render`;
- **the commit phase**: `commitRoot`, `commitWork`, `commitDeletion`, `createDom`
  and `updateDom`, with the predicates `isEvent`, `isProperty`, `isNew` and
  `isGone`;
- **the hook store**: `useState` and the setter it returns.

Modules, in dependency order:

| module | file | contents |
|---|---|---|
| `Wrappers`, `Elements` | `elements.dfy` | values, element descriptions, `createElement`, `createTextElement`, `flat(Infinity)` |
| `HostDom` | `hostdom.dfy` | an abstract DOM: a store of nodes with a kind, a parent, an ordered child list, attributes and listeners. It holds `appendChild`, `removeChild` (which can throw), `createDom` and `updateDom`. |
| `Fibers` | `fibers.dfy` | fibers in an arena addressed by handle. It holds the depth-first successor of `performUnitOfWork`, the climb to the nearest ancestor with a node, and sibling chains. |
| `Hooks` | `hooks.dfy` | hook cells, the fold of queued actions, and the hook-cursor rule |
| `Reconcile` | `reconcile.dfy` | the decisions and arena updates of `reconcileChildren`, as functions of a `Job` (one call's inputs) |
| `Commit` | `commit.dfy` | `commitRoot`, `commitWork` and `commitDeletion` as functions on the arena and the DOM store |
| `Scheduler` | `scheduler.dfy` | the class `Didact`, whose fields are the module-level variables. Its methods are the source's stateful functions, each proved against the functions above. |

Design of the model:

- **Fibers are records in an arena** (`map<FiberId, Fiber>`), and their links
  are handles. Handles are handed out in increasing order, so `child` and
  `sibling` point to larger handles and `parent` and `alternate` to smaller
  ones (`Fibers.Linked`). Every climb and every commit recursion terminates on
  that order.
- **The DOM is an abstract node store** (`HostDom.Store`). A DOM call that throws
  yields `Threw(store, error)` and keeps the mutations made before it.
- **Hook cells are in a store addressed by handle.** A setter is
  `Didact.SetState(cell, action)`, because a setter closure captures its cell.
- **A component is an opaque id**, and what its body does is a parameter of type
  `Scheduler.App`. `App.initials` gives the initial values of its `useState` calls.
  `App.view` gives the element it returns from the states. `App.apply` interprets
  an action.
- **The idle deadline is a budget**: `timeRemaining()` reads as the budget minus
  the units already performed.

Quirks of the code are kept as written, and each one is named in a lemma:

1. The hook cursor never leaves 0. `if (!!hookIndex)` guards the increment,
   so every `useState` call of a component reads the alternate's first cell
   (`Hooks.HookIndexStaysZero`, `Scheduler.ComponentStates`). An unconditional
   increment would give each call its own cell.
2. The listener-removal filter in `updateDom` is always truthy, because it passes
   `isNew(prev, next)` uncalled. Every old listener is therefore removed, and an
   unchanged one is not added back (`HostDom.UnchangedListenerDropped`,
   `HostDom.UpdateSamePropsKeepsAttrs`).
3. `commitWork` acts only on a fiber that has a node, so the child recursion
   of `commitDeletion` is never reached from it. A deletion is one `removeChild`
   or nothing (`Commit.DeleteIsOneRemoveChild`).
4. `deletions.forEach(commitWork)` also walks each deleted fiber's `child` and
   `sibling`. Of two deleted adjacent siblings, the later one can therefore be
   removed by the first walk and then again on its own turn, where the second
   `removeChild` throws. `Commit.LaterDeletedSiblingThrows` shows this on one
   concrete two-sibling arena; no lemma states it for every arena.
5. A null element sets `prevSibling` to null, so fibers made after it are not
   linked into the child chain (`Reconcile.NullUnlinksLater`).
6. `createDom` copies every prop except `children` as an attribute, event
   handlers included (`HostDom.CreateDom`).

## Model

| member | source | states |
|---|---|---|
| Elements.CreateTextElement | src/didact.tsx:16-24 | the element is a TEXT_ELEMENT whose only attribute is `nodeValue`, equal to the text, and which has no children |
| Elements.WrapChildren | src/didact.tsx:9-11 | one child per argument, in order; a raw value becomes a text element and an object child is kept |
| Elements.CreateElement | src/didact.tsx:4-14 | the type is kept; the props are the given props without `children`; there are as many children as arguments, in order; each raw argument becomes a text element holding it, and each object argument is kept unchanged |
| Elements.FlattenAppend | src/didact.tsx:277 | `Elements.Flatten`, the model of `flat(Infinity)`, distributes over concatenation of child lists |
| Elements.FlattenFlat | src/didact.tsx:277 | under `Elements.Flatten`, a list with no nested arrays flattens to itself, position by position, with null children kept as holes |
| Elements.CreateElementFlat | src/didact.tsx:4-14 | when no argument is an array, the children of `createElement` are already flat |
| HostDom.Lower | src/didact.tsx:47 | `toLowerCase` keeps the length, leaves no upper-case letter, turns each upper-case letter into its lower-case partner in place, and keeps every other character |
| HostDom.EventName | src/didact.tsx:47 | the event name of an `on*` key is the rest of the key after "on", lower-cased |
| HostDom.Without | src/didact.tsx:142 | removing a node from a child list keeps every other entry and drops every copy of that node; a list without the node is returned unchanged |
| HostDom.WithoutAppend | src/didact.tsx:142 | removal distributes over concatenation, so the entries left keep their order |
| HostDom.WithoutSingle | src/didact.tsx:142 | a one-entry list loses its entry exactly when it is the removed node |
| HostDom.AppendChild | src/didact.tsx:126 | `appendChild` throws exactly when the node is appended to itself or to a text node, and then changes nothing; on success the node is unlinked from its old parent's child list, becomes the new parent's last child after its other children, and names it as parent; every other node is unchanged and the set of nodes is kept |
| HostDom.RemoveChild | src/didact.tsx:142 | `removeChild` succeeds exactly when the node is a child of the parent; it then drops the node from the parent's child list, keeping the other children in order, detaches the node, and changes no other node; otherwise it throws NotFound and changes nothing |
| HostDom.AppendChildMoves | src/didact.tsx:126 | appending an attached node moves it: afterwards it is listed exactly once under the new parent and under no other node, and the store stays consistent |
| HostDom.AppendChildOrder | src/didact.tsx:126 | on a consistent store the new parent's children are its old children without the node, in order, followed by the node |
| HostDom.RemoveChildDetaches | src/didact.tsx:142 | on a consistent store `removeChild` succeeds exactly when the parent link says so, keeps the store consistent, and leaves the node unlisted everywhere |
| HostDom.CreateDom | src/didact.tsx:26-52 | a fresh node is detached and has no children; its kind is a text node for TEXT_ELEMENT and an element otherwise; its attributes are exactly the props, event handlers included; its listeners are exactly one (event name, handler) pair per `on*` prop |
| HostDom.AddDetachedConsistent | src/didact.tsx:273-276 | adding a fresh detached node keeps the store consistent |
| HostDom.RemoveOldListeners | src/didact.tsx:76-84 | the loop removes the listener of every `on*` key of the old props (the filter is always truthy) |
| HostDom.AddNewListeners | src/didact.tsx:87-93 | the loop adds a listener for every `on*` key of the new props whose value changed |
| HostDom.ClearGoneAttrs | src/didact.tsx:97-101 | the loop sets to "" every plain property of the old props that the new props lack |
| HostDom.SetChangedAttrs | src/didact.tsx:103-107 | the loop sets every plain property of the new props whose value changed |
| HostDom.UpdateDom | src/didact.tsx:69-109 | the four loops in order compute `UpdatedNode` |
| HostDom.UpdatedAttrs | src/didact.tsx:97-107 | for each key: a plain property that disappeared reads "", one that changed reads its new value, and every other attribute is unchanged |
| HostDom.KeyPredicates | src/didact.tsx:61-68 | about `IsEvent`, `IsProperty`, `IsNew` and `IsGone`: an `on*` key and "children" are never plain properties; a key counts as changed exactly when it is in one props object only, or in both with different values; a key that was present and is gone counts as changed |
| HostDom.UpdateDomMissingProps | src/didact.tsx:74 | with either props object missing, `updateDom` changes nothing |
| HostDom.UnchangedListenerDropped | src/didact.tsx:76-93 | a listener whose handler did not change is removed and not added back |
| HostDom.UpdateSamePropsKeepsAttrs | src/didact.tsx:69-109 | updating with identical props keeps every attribute but removes all of the node's listeners for those props |
| Fibers.Climb | src/didact.tsx:204-211 | the climb for a sibling ends at a fiber of the arena, or at none |
| Fibers.Succ | src/didact.tsx:201-213 | the next unit is a fiber of the arena, or none |
| Fibers.NextUnit | src/didact.tsx:201-213 | the climbing loop returns the depth-first successor: the child, else the sibling of the nearest fiber on the way up that has one, else none |
| Fibers.Preorder | src/didact.tsx:201-213 | a preorder starts with the subtree's root |
| Fibers.PreorderSucc | src/didact.tsx:201-213 | within a subtree linked as the source links fibers, the successor of each fiber is the next one in preorder, and after the last comes what follows the subtree |
| Fibers.WalkIsPreorder | src/didact.tsx:174-180 | starting the cursor at the root of a linked tree visits its fibers in depth-first preorder and then stops |
| Fibers.ParentPath | src/didact.tsx:117-121 | the fibers the climb passes are in the arena |
| Fibers.NearestDomFiber | src/didact.tsx:117-122 | the fiber the climb stops at is in the arena |
| Fibers.NearestDomIsFirstOnPath | src/didact.tsx:117-122 | the climb finds no node exactly when no fiber on the parent path has one; otherwise it stops at the first fiber on that path with a node |
| Fibers.FindDomParent | src/didact.tsx:117-122 | the loop returns the node of the nearest ancestor that has one |
| Fibers.Chain | src/didact.tsx:283-326 | a sibling chain lists fibers of the arena, is empty exactly when it has no start, and begins at its start |
| Fibers.ChainLinks | src/didact.tsx:326 | each fiber of a chain has as sibling the next one, and the last has none |
| Hooks.FoldSnoc | src/didact.tsx:246-249 | applying one more queued action applies it last |
| Hooks.FoldAppend | src/didact.tsx:246-249 | folding two queues in turn is folding their concatenation |
| Hooks.QueuedActionApplied | src/didact.tsx:231-252 | an action the setter queues is applied, last, by the next `useState` that recovers that cell |
| Hooks.HookIndexStaysZero | src/didact.tsx:268 | under `Hooks.NextHookIndex`, the model of `if (!!hookIndex) hookIndex = hookIndex + 1`, the cursor stays 0 from 0 however many calls follow |
| Hooks.HookIndexCountsFromNonZero | src/didact.tsx:268 | from a non-zero value the cursor does count calls |
| Reconcile.Classify | src/didact.tsx:291-316 | an index makes an UPDATE fiber exactly when the old fiber and the element have the same type, a PLACEMENT fiber exactly for an element without a same-type old fiber, and no fiber exactly when the element is missing; the old fiber is deleted exactly when it exists and is not matched; no index both updates and deletes |
| Reconcile.Diff | src/didact.tsx:286-316 | the loop runs max(number of elements, length of the old chain) times |
| Reconcile.DeletedUpTo | src/didact.tsx:313-316 | every fiber pushed onto the deletions list is an old fiber |
| Reconcile.Staged | src/didact.tsx:286-327 | the arena keeps every old fiber and gains each fiber made so far |
| Reconcile.StagedKeys | src/didact.tsx:286-327 | after k iterations the arena holds exactly the old fibers plus the fibers made at indices below k |
| Reconcile.StagedOld | src/didact.tsx:313-322 | an old fiber changes only by its DELETE tag and, for the wip fiber, its child link |
| Reconcile.StagedNew | src/didact.tsx:293-324 | a fiber made at index i is the fiber built there, with the sibling link set by later iterations |
| Reconcile.StagedOk | src/didact.tsx:286-327 | every iteration keeps the arena's links in order and its node and hook references valid |
| Reconcile.ChainIsRun | src/didact.tsx:318-324 | the sibling chain from the fiber made at index i is the run of consecutive indices that made fibers |
| Reconcile.ChildrenMirrorElements | src/didact.tsx:286-324 | with no null elements, the wip fiber's child chain has one fiber per element, in order, each with the element's type and props and the wip fiber as parent |
| Reconcile.ChildChainIsElements | src/didact.tsx:318-324 | with no null elements, the child chain is the fibers made at indices 0 .. n-1 |
| Reconcile.ElementsMade | src/didact.tsx:293-312 | with no null elements, each index makes a fiber that mirrors its element |
| Reconcile.FirstChild | src/didact.tsx:318-319 | the wip fiber's child is the fiber made at index 0, or none |
| Reconcile.ElementMade | src/didact.tsx:293-312 | a non-null element makes a fiber with its type, its props and the wip fiber as parent |
| Reconcile.NullUnlinksLater | src/didact.tsx:318-324 | a fiber made after a null element is in the arena but not in the wip fiber's child chain |
| Reconcile.DeletedAreTagged | src/didact.tsx:313-315 | every fiber on the deletions list is tagged DELETE |
| Reconcile.DeletedExactly | src/didact.tsx:313-316 | the deletions list holds exactly the old fibers whose type differs from the element at their index (or that have no element) |
| Reconcile.EveryElementAndOldAccounted | src/didact.tsx:286-316 | with no null elements, #UPDATE + #PLACEMENT = number of elements, #UPDATE + #DELETE = length of the old chain, and the deletions list has #DELETE entries |
| Reconcile.SameShapeOnlyUpdates | src/didact.tsx:291-316 | when types match position by position, every index is an UPDATE and nothing is deleted |
| Reconcile.UpdateKeepsDom | src/didact.tsx:293-301 | an UPDATE fiber keeps the old fiber's node and has it as alternate |
| Reconcile.TypeChangeReplaces | src/didact.tsx:303-316 | a type change gives a PLACEMENT fiber with no node and tags the old fiber DELETE |
| Reconcile.NewElementPlaced | src/didact.tsx:291-312 | an element past the end of the old chain gives a PLACEMENT fiber of its type and props, with no node and no alternate, and deletes nothing at its index |
| Reconcile.NoElements | src/didact.tsx:286-324 | with no elements the loop runs once per old fiber; the wip fiber keeps its child when there is no old chain and loses it otherwise; every old fiber is deleted, in chain order |
| Reconcile.AllDeleted | src/didact.tsx:313-316 | with no elements, the first k iterations push the first k old fibers onto the deletions list |
| Commit.CommitDeletion | src/didact.tsx:138-153 | a deletion never adds or drops nodes of the store |
| Commit.UpdateAt | src/didact.tsx:129-130 | updating a node's props keeps the set of nodes |
| Commit.Effect | src/didact.tsx:124-132 | a fiber's effect keeps the set of nodes |
| Commit.CommitWork | src/didact.tsx:111-136 | committing a subtree keeps the set of nodes |
| Commit.CommitAll | src/didact.tsx:55 | committing the deletions list keeps the set of nodes |
| Commit.RootChild | src/didact.tsx:56 | `wipRoot?.child` is a fiber of the arena, or none |
| Commit.CommitRoot | src/didact.tsx:54-59 | `commitRoot` keeps the set of nodes |
| Commit.NearestDomInStore | src/didact.tsx:117-122 | the node the climb finds exists in the store |
| Commit.EffectByTag | src/didact.tsx:124-132 | with no node on the fiber or above it, or no tag, nothing happens; PLACEMENT is `appendChild` of the node to the nearest ancestor's node, so the node becomes its last child, and throws exactly when `appendChild` would; UPDATE succeeds, replaces only the fiber's node by `updateDom` against the alternate's props, and leaves every node's parent, children and kind unchanged |
| Commit.DeleteIsOneRemoveChild | src/didact.tsx:124-153 | a DELETE fiber's effect is one `removeChild` of its node from the nearest ancestor's node, or nothing when it has no node, so the recursion into children is unreachable |
| Commit.UpdateAtConsistent | src/didact.tsx:129-130 | `updateDom` keeps the DOM tree consistent |
| Commit.CommitDeletionConsistent | src/didact.tsx:138-153 | a deletion keeps the DOM tree consistent |
| Commit.EffectConsistent | src/didact.tsx:124-132 | each effect keeps the DOM tree consistent |
| Commit.CommitWorkConsistent | src/didact.tsx:111-136 | committing a subtree keeps the DOM tree consistent, whether it finishes or throws |
| Commit.CommitAllConsistent | src/didact.tsx:55 | committing the deletions list keeps the DOM tree consistent |
| Commit.CommitRootConsistent | src/didact.tsx:54-59 | `commitRoot` keeps the DOM tree consistent |
| Commit.CommitWorkIsPreorder | src/didact.tsx:111-136 | committing a linked subtree applies the effects of its fibers in depth-first preorder, stopping at the first throw, then goes on to the subtree's sibling |
| Commit.FirstDeletionRemovesBoth | src/didact.tsx:134-135 | in the two-sibling example, committing the first deleted fiber also removes its deleted sibling |
| Commit.LaterDeletedSiblingThrows | src/didact.tsx:55 | in the two-sibling example, committing the deletions list removes both nodes and then throws NotFound on the second fiber |
| Commit.SecondDeletionThrows | src/didact.tsx:142 | removing the second sibling's node once it is gone throws NotFound and changes nothing |
| Scheduler.OldChild | src/didact.tsx:283 | `wipFiber.alternate?.child` is a fiber of the arena, or none |
| Scheduler.JobFor | src/didact.tsx:281-284 | one reconciliation's decisions are those the loop takes over the alternate's old chain and the elements |
| Scheduler.ComponentStates | src/didact.tsx:224-268 | on a first render each `useState` call returns its own initial value; on a re-render every call returns the first old cell's state with its queue applied |
| Scheduler.RecoverState | src/didact.tsx:237-249 | the fold loop returns the recovered state with the queued actions applied in order, or the initial value |
| Scheduler.ReconcileLoop | src/didact.tsx:281-328 | the loop leaves the arena of the job's specification, appends the deleted old fibers to the deletions list, and runs max(elements, old chain) times |
| Scheduler.NewCells | src/didact.tsx:228-271 | the fresh cells for n states are stored under exactly the n handles from the first free one, the i-th holding the i-th state with an empty queue |
| Scheduler.NewCellsGrow | src/didact.tsx:228-271 | storing fresh cells above every existing handle leaves the existing cells unchanged |
| Scheduler.AddNodeGrows | src/didact.tsx:274-276 | storing a detached, childless node under a fresh handle leaves every existing node unchanged |
| Scheduler.PushedGrows | src/didact.tsx:313-316 | pushing onto the deletions list extends it, and a missing list stays missing |
| Scheduler.GrowsTrans | src/didact.tsx:174-187 | what one unit of work keeps, two in a row keep |
| Scheduler.ReconcileOne | src/didact.tsx:287-326 | one iteration performs the arena step its decision specifies and pushes the old fiber when it is deleted |
| Scheduler.Didact.constructor | src/didact.tsx:169-172 | the module starts with no fibers, no hooks, every pointer null and the cursor at 0, over an existing document |
| Scheduler.Didact.Render | src/didact.tsx:155-167 | a new ROOT fiber holding the container's node, one child element and the current root as alternate becomes the wip root and the next unit; deletions become empty; no node changes |
| Scheduler.Didact.SetState | src/didact.tsx:251-265 | the action is queued on the cell; only when the current root has a node, a copy of it with the current root as alternate becomes the wip root and the next unit, with empty deletions; no node changes |
| Scheduler.Didact.ScheduleRender | src/didact.tsx:254-263 | the rescheduling half of the setter, with the same condition and effect |
| Scheduler.Didact.UseState | src/didact.tsx:228-271 | the state is the recovered cell's state with its queue applied (or the initial value); a fresh cell with that state and an empty queue is added and appended to the wip fiber's hooks; no existing cell changes; the cursor follows `NextHookIndex` |
| Scheduler.Didact.ReconcileChildren | src/didact.tsx:281-328 | the arena becomes the job's final arena and the deleted old fibers are pushed onto deletions; the DOM, the hooks and the roots are unchanged |
| Scheduler.Didact.UpdateHostComponent | src/didact.tsx:273-279 | a host fiber without a node gets a fresh one from `createDom`; the fiber is then reconciled against its flattened children |
| Scheduler.Didact.EnsureDom | src/didact.tsx:274-276 | a node is created and attached to the fiber only when the fiber has none |
| Scheduler.Didact.UpdateFunctionComponent | src/didact.tsx:220-226 | the fiber's hooks are the fresh cells of its `useState` calls, holding the states `ComponentStates` gives; the fiber is reconciled against the one element its view returns; the DOM is unchanged |
| Scheduler.Didact.CallComponent | src/didact.tsx:221-224 | with the fiber as wip fiber, its hooks emptied and the cursor at 0, the component's calls store one fresh cell per initial value, and the returned element is its view of those states |
| Scheduler.Didact.BeginComponent | src/didact.tsx:221-223 | the fiber becomes the wip fiber with no hooks and the cursor at 0, and the cell its first `useState` call recovers is unchanged |
| Scheduler.Didact.RunComponentHooks | src/didact.tsx:224-271 | the component's `useState` calls return `ComponentStates` and append cells under consecutive fresh handles |
| Scheduler.Didact.ComponentUseState | src/didact.tsx:228-271 | a call made with the cursor at 0 recovers the same first cell as the earlier calls and adds one cell |
| Scheduler.Didact.PerformUnitOfWork | src/didact.tsx:191-214 | after the fiber's update the returned unit is its depth-first successor; the roots are unchanged; no fiber is dropped; every existing DOM node and hook cell is unchanged, new nodes are detached, and the deletions list is only extended |
| Scheduler.Didact.WorkLoop | src/didact.tsx:174-187 | a non-null cursor gives at least one unit; the loop stops only with a null cursor or an exhausted budget; the units keep every existing node and cell and only extend the deletions list; it commits only with a null cursor and a wip root, and then the DOM is `commitRoot` applied to the document the units left, with the error it throws; a commit that succeeds promotes the wip root and clears it; without a commit the DOM is what the units left; with no pending unit no unit runs and nothing but the commit changes anything, and with no wip root either nothing changes at all |
| Scheduler.Didact.PerformUnits | src/didact.tsx:175-180 | the loop performs at least one unit when there is work, stops only with a null cursor or an exhausted budget, keeps the roots, and keeps every existing node and cell while only extending the deletions list; with no pending unit it performs none and changes nothing |
| Scheduler.Didact.CommitRoot | src/didact.tsx:54-59 | the DOM becomes what the deletions and then the wip root's child subtree make of it; on success the wip root becomes the current root and is cleared; fibers and hooks are unchanged |
| Scheduler.Didact.CommitDeletions | src/didact.tsx:55 | `deletions.forEach(commitWork)` yields the store of `Commit.CommitAll`, and changes only the DOM |
| Scheduler.Didact.CommitWork | src/didact.tsx:111-136 | the recursion yields the store of `Commit.CommitWork`, and changes only the DOM |
| Scheduler.Didact.CommitEffect | src/didact.tsx:117-132 | the climb and the tag dispatch yield the store of `Commit.Effect` |
| Scheduler.Didact.CommitDeletion | src/didact.tsx:138-153 | the method yields the store of `Commit.CommitDeletion` |
| Scheduler.Didact.CommitPlacement | src/didact.tsx:126 | the PLACEMENT effect yields the store and error of `appendChild`, and changes only the DOM |
| Scheduler.Didact.CommitUpdate | src/didact.tsx:129-130 | the UPDATE effect replaces the node by `updateDom`'s result, and changes only the DOM |

## Left out

- `console.log` calls and the `useSatateCallCount` counter: logging only.
- `requestIdleCallback` and the real `IdleDeadline`: one `workloop` call is modelled, against a budget. Its re-registration of itself is not modelled.
- The browser DOM: nodes are an abstract store. `document.createTextNode` and `document.createElement` become `CreateDom`; a property assignment on a node becomes an attribute write; `addEventListener` and `removeEventListener` become a set of (event, handler) pairs.
- JavaScript typing: `typeof child === "object"` becomes the `Arg` variants; `instanceof Function` becomes the `Comp` type; `flat(Infinity)` becomes `Flatten` over nested child lists; `==` on types is value equality. A function value is a handle, so `!==` on handlers is identity.
- Component bodies: a component is an id. The number of its `useState` calls depends only on its props (`App.initials`). It calls no setter and no other hook while it renders.
- Handles: fibers, nodes and hook cells get fresh increasing handles. `reconcileChildren` gives handle base + i to the fiber made at index i and leaves unused the handles of indices that make none. Fibers that are no longer reachable are never freed.
- A DOM exception during commit: `commitRoot` stops, the roots stay as they were, and `WorkLoop` reports the error. In the source the exception escapes the idle callback, and no further `workloop` is scheduled; that is not modelled.
- HostDom.AppendChild: throws for a node appended to itself or to a text node, but not when the node is an ancestor of the parent; the DOM's cycle check is not modelled.
- `src/main.tsx` (an example application) and `src/types.tsx` (type declarations only) are not part of this model, and neither is the unused React import.
- Scheduler.Didact.PerformUnitOfWork: states the unit it returns and what it keeps, but not the exact new arena. That arena is stated by UpdateHostComponent and UpdateFunctionComponent.
- Scheduler.Didact.WorkLoop: states the loop's stopping and commit conditions and what the units keep, but not which fibers it performed. Each step goes to `Fibers.Succ` of the arena as that step leaves it. Fibers.WalkIsPreorder is about one fixed arena, and the work loop adds fibers as it goes, so no lemma connects the loop's visits to the preorder of the final tree.
- Values (`Elements.Value`): strings, integers, booleans and function handles only. Floating-point numbers, `undefined` as a prop value and object-valued props are not modelled. For objects, `!==` is identity, so a fresh object prop always counts as changed; that case is not modelled.
- HostDom.Lower: `toLowerCase` is modelled for ASCII letters only; Unicode case mapping is not modelled.
- Fibers.WalkIsPreorder: states the order of visits over a linked tree, but not that the tree's handles are distinct, so "each fiber exactly once" is not proved separately.
