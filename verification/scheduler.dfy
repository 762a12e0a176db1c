/**
 * The module-level state of the renderer and the operations that change it:
 * `render`, the work loop with `performUnitOfWork`, the two update functions,
 * `useState` and its setter, `reconcileChildren`, and the commit. Each method
 * is proved against the functions of `Fibers`, `Reconcile`, `Hooks` and
 * `Commit`, whose properties are proved there.
 */
module Scheduler {
  import opened Wrappers
  import opened Elements
  import opened HostDom
  import opened Fibers
  import opened Hooks
  import opened Reconcile
  import Commit

  /**
   * The application code the renderer calls back: for a component, the
   * initial values it passes to `useState` (in call order) and what it renders
   * from its props and the states `useState` returned; and what each action
   * handed to a setter computes from a state.
   */
  datatype App = App(
    initials: (CompId, Props) -> seq<Value>,
    view: (CompId, Props, seq<Value>) -> Option<Element>,
    apply: (Action, Value) -> Value)

  /** An optional fiber reference names a fiber of the arena. */
  predicate In(fs: Arena, p: Option<FiberId>)
  {
    p.Some? ==> p.value in fs
  }

  /** Every fiber of a list is in the arena. */
  predicate AllIn(fs: Arena, ids: Option<seq<FiberId>>)
  {
    ids.Some? ==> forall x :: 0 <= x < |ids.value| ==> ids.value[x] in fs
  }

  /** The root `render` builds: type "ROOT", the container as node, the element as only child. */
  function RenderRoot(element: Element, container: Option<NodeId>, currentRoot: Option<FiberId>): Fiber
  {
    Fiber(Some(Tag("ROOT")), Props(map[], [Elem(element)]), None, None, None, container, currentRoot, None, [])
  }

  /** The root a setter builds: no type, the current root's node and props, the current root as alternate. */
  function SetterRoot(current: Fiber, currentRoot: FiberId): Fiber
  {
    Fiber(None, current.props, None, None, None, current.dom, Some(currentRoot), None, [])
  }

  /**
   * The cell `useState` recovers: `wipFiber.alternate.hooks[hookIndex]`, none
   * when there is no fiber being rendered, no alternate, or no cell at that index.
   */
  function OldHook(fs: Arena, hks: map<HookId, Hook>, wipFiber: Option<FiberId>, hookIndex: nat): (r: Option<Hook>)
    requires Linked(fs) && HookRefs(fs, hks.Keys) && In(fs, wipFiber)
  {
    if wipFiber.None? then None
    else
      var alt := fs[wipFiber.value].alternate;
      if alt.None? || hookIndex >= |fs[alt.value].hooks| then None
      else Some(hks[fs[alt.value].hooks[hookIndex]])
  }

  /** The first fiber of the old chain a reconciliation walks: `wipFiber.alternate?.child`. */
  function OldChild(fs: Arena, wip: FiberId): (r: Option<FiberId>)
    requires Linked(fs) && wip in fs
    ensures In(fs, r)
  {
    var alt := fs[wip].alternate;
    if alt.Some? then fs[alt.value].child else None
  }

  /** The reconciliation of `wip` against `elems` on arena `fs` with first free handle `base`. */
  function JobFor(fs: Arena, wip: FiberId, base: nat, elems: seq<Option<Element>>): (j: Job)
    requires Linked(fs) && Below(fs, base) && wip in fs
    ensures JobOk(j) && Diffed(j) && j.fs == fs && j.wip == wip && j.base == base && j.elems == elems
  {
    var olds := Chain(fs, base, OldChild(fs, wip));
    var j := Job(fs, wip, base, olds, elems, Diff(fs, olds, elems));
    DiffJobOk(j);
    j
  }

  /** `deletions && deletions.push(...)`: append when the list exists. */
  function Pushed(ds: Option<seq<FiberId>>, more: seq<FiberId>): Option<seq<FiberId>>
  {
    if ds.Some? then Some(ds.value + more) else None
  }

  /** `[type(props)]`: the single child a component renders. */
  function Rendered(app: App, c: CompId, props: Props, states: seq<Value>): seq<Option<Element>>
  {
    [app.view(c, props, states)]
  }

  /**
   * The states a component's `useState` calls return. The cursor stays at 0,
   * so every call recovers the alternate's first cell: on a first render each
   * call returns its own initial value, and on a re-render every call returns
   * the first cell's state with its queue applied, whatever its initial value.
   */
  function ComponentStates(first: Option<Hook>, initials: seq<Value>, apply: (Action, Value) -> Value): (r: seq<Value>)
    ensures |r| == |initials|
    ensures first.None? ==> r == initials
    ensures first.Some? ==> forall i :: 0 <= i < |r| ==> r[i] == Fold(apply, first.value.state, first.value.queue)
  {
    seq(|initials|, i requires 0 <= i < |initials| => StartState(first, initials[i], apply))
  }

  /** `a .. a + n - 1`. */
  function Handles(a: nat, n: nat): (r: seq<nat>)
    ensures |r| == n && forall x :: 0 <= x < n ==> r[x] == a + x
  {
    seq(n, x requires 0 <= x => a + x)
  }

  /** The first half of `useState`: start from the recovered cell's state (or `initial`) and apply its queue. */
  method RecoverState(oldHook: Option<Hook>, initial: Value, apply: (Action, Value) -> Value) returns (state: Value)
    ensures state == StartState(oldHook, initial, apply)
  {
    state := if oldHook.Some? then oldHook.value.state else initial;
    var actions := if oldHook.Some? then oldHook.value.queue else [];
    var i := 0;
    while i < |actions|
      invariant 0 <= i <= |actions|
      invariant Fold(apply, state, actions[i..]) == StartState(oldHook, initial, apply)
    {
      assert actions[i..][1..] == actions[i + 1..];
      state := apply(actions[i], state);
      i := i + 1;
    }
    assert actions[i..] == [];
  }

  /**
   * The loop of `reconcileChildren(wip, elements)` on arena `fs`, allocating
   * handle `base + index` to the fiber made at `index`; `ds` is the deletions list.
   */
  method ReconcileLoop(ghost j: Job, fs0: Arena, wip: FiberId, base: nat, elements: seq<Option<Element>>,
                       ds0: Option<seq<FiberId>>)
    returns (fs: Arena, ds: Option<seq<FiberId>>, count: nat)
    requires JobOk(j) && Diffed(j) && Linked(fs0)
    requires j.fs == fs0 && j.wip == wip && j.base == base && j.elems == elements
    requires j.olds == Chain(fs0, base, OldChild(fs0, wip))
    ensures fs == Final(j) && ds == Pushed(ds0, DeletedUpTo(j, N(j))) && count == N(j)
  {
    ghost var olds := j.olds;
    fs, ds := fs0, ds0;
    var index := 0;
    var oldFiber := OldChild(fs, wip);
    var prevSibling: Option<FiberId> := None;
    assert ds0.Some? ==> ds0.value + [] == ds0.value;
    while index < |elements| || oldFiber.Some?
      invariant index <= N(j)
      invariant fs == Staged(j, index)
      invariant ds == Pushed(ds0, DeletedUpTo(j, index))
      invariant prevSibling == if index > 0 then Link(j, index - 1) else None
      invariant oldFiber == if index < |olds| then Some(olds[index]) else None
      decreases N(j) - index
    {
      ghost var prev, prevDs := fs, ds;
      DiffAt(j, index);
      var newFiber;
      fs, ds, newFiber := ReconcileOne(j, index, fs, ds, oldFiber, prevSibling, wip, base, elements);
      LoopAdvances(j, index, ds0, prev, prevDs, fs, ds);
      prevSibling := newFiber;
      index := index + 1;
      if oldFiber.Some? {
        NextOld(j, index, fs, oldFiber.value);
        oldFiber := fs[oldFiber.value].sibling;
      }
    }
    assert N(j) == Max(|olds|, |elements|);
    assert index == N(j);
    count := index;
  }

  /** One iteration moves the arena and the deletions list one step along their specifications. */
  lemma LoopAdvances(j: Job, k: nat, ds0: Option<seq<FiberId>>, a: Arena, ds: Option<seq<FiberId>>,
                     a': Arena, ds': Option<seq<FiberId>>)
    requires JobOk(j) && k < N(j) && a == Staged(j, k) && a' == Step(j, k, a)
    requires ds == Pushed(ds0, DeletedUpTo(j, k))
    requires ds' == Pushed(ds, if j.slots[k].deleteOld then [j.olds[k]] else [])
    ensures a' == Staged(j, k + 1) && ds' == Pushed(ds0, DeletedUpTo(j, k + 1))
  {
    PushedAppend(ds0, DeletedUpTo(j, k), if j.slots[k].deleteOld then [j.olds[k]] else []);
  }

  /** After iteration `k - 1`, the old fiber it read links to the next one of the old chain. */
  lemma NextOld(j: Job, k: nat, a: Arena, id: FiberId)
    requires JobOk(j) && Linked(j.fs) && 0 < k <= N(j) && a == Staged(j, k) && k - 1 < |j.olds| && id == j.olds[k - 1]
    requires j.olds == Chain(j.fs, j.base, OldChild(j.fs, j.wip))
    ensures id in a && a[id].sibling == if k < |j.olds| then Some(j.olds[k]) else None
  {
    StagedOld(j, k, id);
    ChainLinks(j.fs, j.base, OldChild(j.fs, j.wip), k - 1);
  }

  /**
   * One iteration of the `reconcileChildren` loop, at `index`: compare the old
   * fiber with the element, make the new fiber, tag and push the old one, and
   * link the new one from the reconciled fiber or the previous new fiber.
   */
  method ReconcileOne(ghost j: Job, index: nat, fs0: Arena, ds0: Option<seq<FiberId>>, oldFiber: Option<FiberId>,
                      prevSibling: Option<FiberId>, wip: FiberId, base: nat, elements: seq<Option<Element>>)
    returns (fs: Arena, ds: Option<seq<FiberId>>, newFiber: Option<FiberId>)
    requires JobOk(j) && index < N(j) && fs0 == Staged(j, index)
    requires j.slots[index] == Classify(OldAt(j.fs, j.olds, index), ElemAt(j.elems, index))
    requires j.wip == wip && j.base == base && j.elems == elements
    requires prevSibling == (if index > 0 then Link(j, index - 1) else None)
    requires oldFiber == (if index < |j.olds| then Some(j.olds[index]) else None)
    ensures fs == Step(j, index, fs0) && newFiber == Link(j, index)
    ensures ds == Pushed(ds0, if j.slots[index].deleteOld then [j.olds[index]] else [])
  {
    fs, ds := fs0, ds0;
    var element := if index < |elements| then elements[index] else None;
    var oldRec := None;
    if oldFiber.Some? {
      oldRec := Some(fs[oldFiber.value]);
    }
    SlotHere(j, index, fs);
    PushedAppend(ds0, [], []);
    var sameType := SameType(oldRec, element);
    ghost var slot := j.slots[index];
    assert slot == Classify(oldRec, element);
    newFiber := None;
    if oldFiber.Some? && sameType {
      fs := fs[base + index := Fiber(oldRec.value.ftype, element.value.props, Some(wip), None, None,
                                     oldRec.value.dom, oldFiber, Some(Update), [])];
      newFiber := Some(base + index);
    }
    if element.Some? && !sameType {
      fs := fs[base + index := Fiber(Some(element.value.etype), element.value.props, Some(wip), None, None,
                                     None, None, Some(Placement), [])];
      newFiber := Some(base + index);
    }
    assert newFiber.Some? <==> slot.made.Some?;
    ghost var a1 := fs;
    assert a1 == if slot.made.Some? then fs0[base + index := NewFiber(j, index)] else fs0;
    assert newFiber == Link(j, index);
    assert index > 0 && Link(j, index - 1).Some? ==> base + index - 1 in fs0;
    if oldFiber.Some? && !sameType {
      fs := fs[oldFiber.value := fs[oldFiber.value].(effectTag := Some(Delete))];
      ds := Pushed(ds, [oldFiber.value]);
    }
    if index == 0 {
      fs := fs[wip := fs[wip].(child := newFiber)];
    } else if prevSibling.Some? {
      fs := fs[prevSibling.value := fs[prevSibling.value].(sibling := newFiber)];
    }
  }

  /** `push` onto a list that exists, twice, is one `push` of both parts. */
  lemma PushedAppend(ds: Option<seq<FiberId>>, a: seq<FiberId>, b: seq<FiberId>)
    ensures Pushed(Pushed(ds, a), b) == Pushed(ds, a + b)
    ensures Pushed(ds, []) == ds
  {
    if ds.Some? {
      assert ds.value + a + b == ds.value + (a + b);
      assert ds.value + [] == ds.value;
    }
  }

  /** The decision recorded for index `k`. */
  lemma DiffAt(j: Job, k: nat)
    requires Diffed(j) && k < N(j)
    ensures j.slots[k] == Classify(OldAt(j.fs, j.olds, k), ElemAt(j.elems, k))
  {
  }

  /**
   * At iteration `k` the old fiber the loop reads still has its original type
   * and node, so the loop body takes the decision `Diff` records.
   */
  lemma SlotHere(j: Job, k: nat, a: Arena)
    requires JobOk(j) && k < N(j) && a == Staged(j, k)
    requires j.slots[k] == Classify(OldAt(j.fs, j.olds, k), ElemAt(j.elems, k))
    ensures k < |j.olds| ==> j.olds[k] in a && a[j.olds[k]].ftype == j.fs[j.olds[k]].ftype
                             && a[j.olds[k]].dom == j.fs[j.olds[k]].dom
    ensures j.slots[k] == Classify(if k < |j.olds| then Some(a[j.olds[k]]) else None, ElemAt(j.elems, k))
  {
    if k < |j.olds| {
      StagedOld(j, k, j.olds[k]);
    }
  }

  /** The exception an outcome carries, if any. */
  function ErrorOf(o: Outcome): Option<DomError>
  {
    if o.Threw? then Some(o.error) else None
  }

  /** The arena after `fiber.dom = createDom(fiber)`, when the fiber has no node yet. */
  function WithDom(fs: Arena, id: FiberId, n: NodeId): Arena
    requires id in fs
  {
    if fs[id].dom.Some? then fs else fs[id := fs[id].(dom := Some(n))]
  }

  /** The fresh cells `useState` stores for `states`, under handles `h0`, `h0 + 1`, ... */
  function NewCells(h0: nat, states: seq<Value>): (r: map<HookId, Hook>)
    ensures forall h :: h in r <==> h0 <= h < h0 + |states|
    ensures forall i :: 0 <= i < |states| ==> r[h0 + i] == Hook(states[i], [])
  {
    if states == [] then map[]
    else NewCells(h0, states[..|states| - 1])[h0 + |states| - 1 := Hook(states[|states| - 1], [])]
  }

  /** Store `d1` keeps every node of `d0` as it was, and every node it adds is detached and childless. */
  ghost predicate DomGrows(d0: Store, d1: Store)
  {
    && (forall n :: n in d0 ==> n in d1 && d1[n] == d0[n])
    && (forall n :: n in d1 && n !in d0 ==> d1[n].parent == None && d1[n].children == [])
  }

  /** Store `h1` keeps every cell of `h0` as it was. */
  ghost predicate HooksGrow(h0: map<HookId, Hook>, h1: map<HookId, Hook>)
  {
    forall h :: h in h0 ==> h in h1 && h1[h] == h0[h]
  }

  /** The deletions list exists in both states or in neither, and the later one extends the earlier one. */
  ghost predicate DeletionsGrow(ds0: Option<seq<FiberId>>, ds1: Option<seq<FiberId>>)
  {
    ds0.Some? == ds1.Some? && (ds0.Some? ==> ds0.value <= ds1.value)
  }

  /** Cells stored from a handle past every existing one leave the existing cells alone. */
  lemma NewCellsGrow(hks: map<HookId, Hook>, h0: nat, states: seq<Value>)
    requires forall h :: h in hks ==> h < h0
    ensures HooksGrow(hks, hks + NewCells(h0, states))
  {
  }

  /** A node stored under a fresh handle, detached and childless, leaves the existing nodes alone. */
  lemma AddNodeGrows(d: Store, n: NodeId, node: DomNode)
    requires n !in d && node.parent == None && node.children == []
    ensures DomGrows(d, d[n := node])
  {
  }

  /** Pushing onto the deletions list extends it. */
  lemma PushedGrows(ds: Option<seq<FiberId>>)
    ensures forall more :: DeletionsGrow(ds, Pushed(ds, more))
  {
    forall more ensures DeletionsGrow(ds, Pushed(ds, more)) {
      if ds.Some? {
        assert ds.value <= ds.value + more;
      }
    }
  }

  /** Two units of work in a row keep what each keeps. */
  lemma GrowsTrans(d0: Store, d1: Store, d2: Store, h0: map<HookId, Hook>, h1: map<HookId, Hook>, h2: map<HookId, Hook>,
                   ds0: Option<seq<FiberId>>, ds1: Option<seq<FiberId>>, ds2: Option<seq<FiberId>>)
    requires DomGrows(d0, d1) && DomGrows(d1, d2)
    requires HooksGrow(h0, h1) && HooksGrow(h1, h2)
    requires DeletionsGrow(ds0, ds1) && DeletionsGrow(ds1, ds2)
    ensures DomGrows(d0, d2) && HooksGrow(h0, h2) && DeletionsGrow(ds0, ds2)
  {
    if ds0.Some? {
      assert ds0.value == ds1.value[..|ds0.value|] && ds1.value == ds2.value[..|ds1.value|];
    }
  }

  /** The renderer's module-level variables, with fibers, hooks and DOM nodes in stores addressed by handle. */
  class Didact {
    var fibers: Arena
    var nextFiber: nat
    var hooks: map<HookId, Hook>
    var nextHook: nat
    var dom: Store
    var nextNode: nat
    var nextUnitOfWork: Option<FiberId>
    var currentRoot: Option<FiberId>
    var wipRoot: Option<FiberId>
    var deletions: Option<seq<FiberId>>
    var wipFiber: Option<FiberId>
    var hookIndex: nat

    /**
     * The stores are closed (every handle a fiber holds names an entry), the
     * allocators are past every handle in use, the fiber links are ordered, and
     * the document's parent and child links agree.
     */
    ghost predicate Valid()
      reads this
    {
      && Linked(fibers) && Below(fibers, nextFiber)
      && DomRefs(fibers, dom.Keys) && HookRefs(fibers, hooks.Keys)
      && (forall h :: h in hooks ==> h < nextHook)
      && (forall n :: n in dom ==> n < nextNode)
      && Consistent(dom)
      && In(fibers, nextUnitOfWork) && In(fibers, currentRoot) && In(fibers, wipRoot) && In(fibers, wipFiber)
      && AllIn(fibers, deletions)
    }

    /** The state when the module loads, over an existing document. */
    constructor (document: Store, free: nat)
      requires Consistent(document) && forall n :: n in document ==> n < free
      ensures Valid()
      ensures fibers == map[] && hooks == map[] && dom == document && nextNode == free
      ensures nextUnitOfWork.None? && currentRoot.None? && wipRoot.None? && deletions.None? && wipFiber.None?
      ensures hookIndex == 0
    {
      fibers, nextFiber := map[], 0;
      hooks, nextHook := map[], 0;
      dom, nextNode := document, free;
      nextUnitOfWork, currentRoot, wipRoot := None, None, None;
      deletions, wipFiber, hookIndex := None, None, 0;
    }

    /** Store a new fiber under the next free handle. */
    method AddFiber(f: Fiber) returns (id: FiberId)
      requires Valid() && LinksOk(fibers[nextFiber := f], nextFiber, f)
      requires (f.dom.Some? ==> f.dom.value in dom) && f.hooks == []
      modifies this
      ensures Valid()
      ensures id == old(nextFiber) && fibers == old(fibers)[id := f] && nextFiber == id + 1
      ensures hooks == old(hooks) && nextHook == old(nextHook) && dom == old(dom) && nextNode == old(nextNode)
      ensures nextUnitOfWork == old(nextUnitOfWork) && currentRoot == old(currentRoot) && wipRoot == old(wipRoot)
      ensures deletions == old(deletions) && wipFiber == old(wipFiber) && hookIndex == old(hookIndex)
    {
      id := nextFiber;
      LinkedUpdate(fibers, id, f);
      fibers := fibers[id := f];
      nextFiber := nextFiber + 1;
    }

    /**
     * `render(element, container)`: a new work-in-progress root over the
     * container, with the current root as alternate; the deletions list is
     * emptied and work starts at the root.
     */
    method Render(element: Element, container: Option<NodeId>)
      requires Valid() && (container.Some? ==> container.value in dom)
      modifies this
      ensures Valid()
      ensures var root := old(nextFiber);
        && fibers == old(fibers)[root := RenderRoot(element, container, old(currentRoot))]
        && nextFiber == root + 1
        && wipRoot == Some(root) && nextUnitOfWork == Some(root) && deletions == Some([])
      ensures hooks == old(hooks) && nextHook == old(nextHook) && dom == old(dom) && nextNode == old(nextNode)
      ensures currentRoot == old(currentRoot) && wipFiber == old(wipFiber) && hookIndex == old(hookIndex)
    {
      var root := AddFiber(RenderRoot(element, container, currentRoot));
      wipRoot := Some(root);
      deletions := Some([]);
      nextUnitOfWork := wipRoot;
    }

    /**
     * The setter `useState` returns for cell `h`: queue the action on the cell;
     * then, if there is a committed root with a node, start a new render from a
     * root that copies it (otherwise nothing is scheduled).
     */
    method SetState(h: HookId, action: Action)
      requires Valid() && h in hooks
      modifies this
      ensures Valid()
      ensures hooks == old(hooks)[h := old(hooks)[h].(queue := old(hooks)[h].queue + [action])]
      ensures nextHook == old(nextHook) && dom == old(dom) && nextNode == old(nextNode)
      ensures currentRoot == old(currentRoot) && wipFiber == old(wipFiber) && hookIndex == old(hookIndex)
      ensures if old(currentRoot).Some? && old(fibers)[old(currentRoot).value].dom.Some? then
          var root := old(nextFiber);
          && fibers == old(fibers)[root := SetterRoot(old(fibers)[old(currentRoot).value], old(currentRoot).value)]
          && nextFiber == root + 1
          && wipRoot == Some(root) && nextUnitOfWork == Some(root) && deletions == Some([])
        else
          fibers == old(fibers) && nextFiber == old(nextFiber) && wipRoot == old(wipRoot)
          && nextUnitOfWork == old(nextUnitOfWork) && deletions == old(deletions)
    {
      hooks := hooks[h := hooks[h].(queue := hooks[h].queue + [action])];
      assert hooks.Keys == old(hooks).Keys;
      ScheduleRender();
    }

    /**
     * The second half of the setter: when the committed root has a node, a new
     * root that copies it becomes the work-in-progress root and the next unit,
     * with an empty deletions list.
     */
    method ScheduleRender()
      requires Valid()
      modifies this
      ensures Valid()
      ensures hooks == old(hooks) && nextHook == old(nextHook) && dom == old(dom) && nextNode == old(nextNode)
      ensures currentRoot == old(currentRoot) && wipFiber == old(wipFiber) && hookIndex == old(hookIndex)
      ensures if old(currentRoot).Some? && old(fibers)[old(currentRoot).value].dom.Some? then
          var root := old(nextFiber);
          && fibers == old(fibers)[root := SetterRoot(old(fibers)[old(currentRoot).value], old(currentRoot).value)]
          && nextFiber == root + 1
          && wipRoot == Some(root) && nextUnitOfWork == Some(root) && deletions == Some([])
        else
          fibers == old(fibers) && nextFiber == old(nextFiber) && wipRoot == old(wipRoot)
          && nextUnitOfWork == old(nextUnitOfWork) && deletions == old(deletions)
    {
      if currentRoot.Some? && fibers[currentRoot.value].dom.Some? {
        var root := AddFiber(SetterRoot(fibers[currentRoot.value], currentRoot.value));
        wipRoot := Some(root);
        nextUnitOfWork := wipRoot;
        deletions := Some([]);
      }
    }

    /**
     * `useState(initial)`: a new cell whose state is the recovered cell's state
     * with its queued actions applied (or `initial`), appended to the hooks of
     * the fiber being rendered; the cursor moves by `NextHookIndex`. Returns the
     * state and the cell the setter pushes to.
     */
    method UseState(initial: Value, apply: (Action, Value) -> Value) returns (state: Value, cell: HookId)
      requires Valid()
      modifies this
      ensures Valid()
      ensures state == StartState(OldHook(old(fibers), old(hooks), old(wipFiber), old(hookIndex)), initial, apply)
      ensures cell == old(nextHook) && hooks == old(hooks)[cell := Hook(state, [])] && nextHook == cell + 1
      ensures hookIndex == NextHookIndex(old(hookIndex))
      ensures fibers == if old(wipFiber).None? then old(fibers)
        else old(fibers)[old(wipFiber).value := old(fibers)[old(wipFiber).value].(hooks := old(fibers)[old(wipFiber).value].hooks + [cell])]
      ensures nextFiber == old(nextFiber) && dom == old(dom) && nextNode == old(nextNode)
      ensures nextUnitOfWork == old(nextUnitOfWork) && currentRoot == old(currentRoot) && wipRoot == old(wipRoot)
      ensures deletions == old(deletions) && wipFiber == old(wipFiber)
    {
      state := RecoverState(OldHook(fibers, hooks, wipFiber, hookIndex), initial, apply);
      cell := nextHook;
      hooks := hooks[cell := Hook(state, [])];
      nextHook := nextHook + 1;
      if wipFiber.Some? {
        var w := wipFiber.value;
        LinkedUpdate(fibers, w, fibers[w].(hooks := fibers[w].hooks + [cell]));
        fibers := fibers[w := fibers[w].(hooks := fibers[w].hooks + [cell])];
      }
      hookIndex := NextHookIndex(hookIndex);
    }

    /**
     * `reconcileChildren(wipFiber, elements)`: the arena becomes the final arena
     * of the job (new fibers from the first free handle on), and the old fibers
     * tagged DELETE are pushed onto the deletions list.
     */
    method ReconcileChildren(wip: FiberId, elements: seq<Option<Element>>)
      requires Valid() && wip in fibers
      modifies this
      ensures Valid()
      ensures var j := JobFor(old(fibers), wip, old(nextFiber), elements);
        && fibers == Final(j) && nextFiber == old(nextFiber) + N(j)
        && deletions == Pushed(old(deletions), DeletedUpTo(j, N(j)))
      ensures hooks == old(hooks) && nextHook == old(nextHook) && dom == old(dom) && nextNode == old(nextNode)
      ensures nextUnitOfWork == old(nextUnitOfWork) && currentRoot == old(currentRoot) && wipRoot == old(wipRoot)
      ensures wipFiber == old(wipFiber) && hookIndex == old(hookIndex)
    {
      ghost var j := JobFor(fibers, wip, nextFiber, elements);
      var count;
      fibers, deletions, count := ReconcileLoop(j, fibers, wip, nextFiber, elements, deletions);
      nextFiber := nextFiber + count;
      StagedOk(j, N(j), dom.Keys, hooks.Keys);
      DeletedAreTagged(j, N(j));
    }

    /**
     * `updateHostComponent(fiber)`: give the fiber a fresh node made by
     * `createDom` if it has none, then reconcile it against its flattened children.
     */
    method UpdateHostComponent(id: FiberId)
      requires Valid() && id in fibers && !IsComponent(fibers[id].ftype)
      modifies this
      ensures Valid()
      ensures var f := old(fibers)[id];
        var n := old(nextNode);
        && dom == (if f.dom.Some? then old(dom) else old(dom)[n := CreateDom(f.ftype, f.props)])
        && nextNode == (if f.dom.Some? then n else n + 1)
        && var j := JobFor(WithDom(old(fibers), id, n), id, old(nextFiber), Flatten(f.props.children));
           && fibers == Final(j) && nextFiber == old(nextFiber) + N(j)
           && deletions == Pushed(old(deletions), DeletedUpTo(j, N(j)))
      ensures hooks == old(hooks) && nextHook == old(nextHook)
      ensures nextUnitOfWork == old(nextUnitOfWork) && currentRoot == old(currentRoot) && wipRoot == old(wipRoot)
      ensures wipFiber == old(wipFiber) && hookIndex == old(hookIndex)
    {
      EnsureDom(id);
      var elements := Flatten(fibers[id].props.children);
      ReconcileChildren(id, elements);
    }

    /** `if (!fiber.dom) fiber.dom = createDom(fiber)`: a host fiber without a node gets a fresh, detached one. */
    method EnsureDom(id: FiberId)
      requires Valid() && id in fibers && !IsComponent(fibers[id].ftype)
      modifies this
      ensures Valid()
      ensures var f := old(fibers)[id];
        var n := old(nextNode);
        && dom == (if f.dom.Some? then old(dom) else old(dom)[n := CreateDom(f.ftype, f.props)])
        && nextNode == (if f.dom.Some? then n else n + 1)
        && fibers == WithDom(old(fibers), id, n)
      ensures nextFiber == old(nextFiber) && hooks == old(hooks) && nextHook == old(nextHook)
      ensures nextUnitOfWork == old(nextUnitOfWork) && currentRoot == old(currentRoot) && wipRoot == old(wipRoot)
      ensures wipFiber == old(wipFiber) && hookIndex == old(hookIndex) && deletions == old(deletions)
    {
      if fibers[id].dom.None? {
        var n := nextNode;
        var node := CreateDom(fibers[id].ftype, fibers[id].props);
        AddDetachedConsistent(dom, n, node);
        dom := dom[n := node];
        nextNode := nextNode + 1;
        LinkedUpdate(fibers, id, fibers[id].(dom := Some(n)));
        fibers := fibers[id := fibers[id].(dom := Some(n))];
      }
    }

    /**
     * `updateFunctionComponent(fiber)`: make the fiber the one being rendered
     * with no hooks and the cursor at 0, run the component (one `useState` per
     * initial value, then its view), and reconcile the fiber against the single
     * element it returns. As the cursor stays at 0, every `useState` call
     * recovers the alternate's first cell.
     */
    method UpdateFunctionComponent(id: FiberId, app: App)
      requires Valid() && id in fibers && IsComponent(fibers[id].ftype)
      modifies this
      ensures Valid()
      ensures var f := old(fibers)[id];
        var c := f.ftype.value.id;
        var initials := app.initials(c, f.props);
        var states := ComponentStates(OldHook(old(fibers), old(hooks), Some(id), 0), initials, app.apply);
        var fs := old(fibers)[id := f.(hooks := Handles(old(nextHook), |initials|))];
        var j := JobFor(fs, id, old(nextFiber), Rendered(app, c, f.props, states));
        && hooks == old(hooks) + NewCells(old(nextHook), states) && nextHook == old(nextHook) + |initials|
        && fibers == Final(j) && nextFiber == old(nextFiber) + N(j)
        && deletions == Pushed(old(deletions), DeletedUpTo(j, N(j)))
      ensures wipFiber == Some(id) && hookIndex == 0
      ensures dom == old(dom) && nextNode == old(nextNode)
      ensures nextUnitOfWork == old(nextUnitOfWork) && currentRoot == old(currentRoot) && wipRoot == old(wipRoot)
    {
      var element := CallComponent(id, app);
      ReconcileChildren(id, [element]);
    }

    /**
     * `wipFiber = fiber; wipFiber.hooks = []; hookIndex = 0; fiber.type(fiber.props)`:
     * the component's `useState` calls, one per initial value, then its view
     * over the states they return.
     */
    method CallComponent(id: FiberId, app: App) returns (element: Option<Element>)
      requires Valid() && id in fibers && IsComponent(fibers[id].ftype)
      modifies this
      ensures Valid()
      ensures var f := old(fibers)[id];
        var c := f.ftype.value.id;
        var initials := app.initials(c, f.props);
        var states := ComponentStates(OldHook(old(fibers), old(hooks), Some(id), 0), initials, app.apply);
        && [element] == Rendered(app, c, f.props, states)
        && hooks == old(hooks) + NewCells(old(nextHook), states) && nextHook == old(nextHook) + |initials|
        && fibers == old(fibers)[id := f.(hooks := Handles(old(nextHook), |initials|))]
      ensures wipFiber == Some(id) && hookIndex == 0
      ensures nextFiber == old(nextFiber) && dom == old(dom) && nextNode == old(nextNode)
      ensures nextUnitOfWork == old(nextUnitOfWork) && currentRoot == old(currentRoot) && wipRoot == old(wipRoot)
      ensures deletions == old(deletions)
    {
      BeginComponent(id);
      var c := fibers[id].ftype.value.id;
      var props := fibers[id].props;
      var initials := app.initials(c, props);
      var states := RunComponentHooks(id, initials, app.apply);
      HooksSetTwice(old(fibers), id, [], Handles(old(nextHook), |initials|));
      element := app.view(c, props, states);
    }

    /** `wipFiber = fiber; wipFiber.hooks = []; hookIndex = 0`. */
    method BeginComponent(id: FiberId)
      requires Valid() && id in fibers
      modifies this
      ensures Valid()
      ensures fibers == old(fibers)[id := old(fibers)[id].(hooks := [])] && wipFiber == Some(id) && hookIndex == 0
      ensures OldHook(fibers, hooks, wipFiber, hookIndex) == OldHook(old(fibers), old(hooks), Some(id), 0)
      ensures nextFiber == old(nextFiber) && hooks == old(hooks) && nextHook == old(nextHook)
      ensures dom == old(dom) && nextNode == old(nextNode)
      ensures nextUnitOfWork == old(nextUnitOfWork) && currentRoot == old(currentRoot) && wipRoot == old(wipRoot)
      ensures deletions == old(deletions)
    {
      wipFiber := Some(id);
      LinkedUpdate(fibers, id, fibers[id].(hooks := []));
      fibers := fibers[id := fibers[id].(hooks := [])];
      hookIndex := 0;
      OldHookIgnoresOwnHooks(old(fibers), old(hooks), id, []);
    }

    /**
     * The `useState` calls of a component body, one per initial value, with the
     * cursor at 0 throughout: each returns a state recovered from the alternate's
     * first cell and appends a fresh cell to the fiber's hooks.
     */
    method RunComponentHooks(id: FiberId, initials: seq<Value>, apply: (Action, Value) -> Value) returns (states: seq<Value>)
      requires Valid() && id in fibers && wipFiber == Some(id) && hookIndex == 0 && fibers[id].hooks == []
      modifies this
      ensures Valid()
      ensures states == ComponentStates(OldHook(old(fibers), old(hooks), Some(id), 0), initials, apply)
      ensures fibers == old(fibers)[id := old(fibers)[id].(hooks := Handles(old(nextHook), |initials|))]
      ensures hooks == old(hooks) + NewCells(old(nextHook), states) && nextHook == old(nextHook) + |initials|
      ensures wipFiber == Some(id) && hookIndex == 0
      ensures nextFiber == old(nextFiber) && dom == old(dom) && nextNode == old(nextNode)
      ensures nextUnitOfWork == old(nextUnitOfWork) && currentRoot == old(currentRoot) && wipRoot == old(wipRoot)
      ensures deletions == old(deletions)
    {
      ghost var first := OldHook(fibers, hooks, Some(id), 0);
      ghost var fs0, hks0, h0 := fibers, hooks, nextHook;
      states := [];
      var i := 0;
      while i < |initials|
        invariant Valid() && i <= |initials| && id in fibers
        invariant wipFiber == Some(id) && hookIndex == 0
        invariant states == ComponentStates(first, initials[..i], apply)
        invariant fibers == fs0[id := fs0[id].(hooks := Handles(h0, i))]
        invariant hooks == hks0 + NewCells(h0, states) && nextHook == h0 + i
        invariant OldHook(fibers, hooks, wipFiber, hookIndex) == first
        invariant nextFiber == old(nextFiber) && dom == old(dom) && nextNode == old(nextNode)
        invariant nextUnitOfWork == old(nextUnitOfWork) && currentRoot == old(currentRoot) && wipRoot == old(wipRoot)
        invariant deletions == old(deletions)
      {
        var state := ComponentUseState(id, initials[i], apply, first, fs0, hks0, h0, states);
        ComponentStatesSnoc(first, initials, i, apply);
        states := states + [state];
        i := i + 1;
      }
      assert initials[..i] == initials;
    }

    /**
     * One `useState(initial)` call of a component body, stated in terms of the
     * calls before it: the fiber's hooks are the handles from `h0` on, one per
     * earlier call, and the cells under them hold the earlier states.
     */
    method ComponentUseState(id: FiberId, initial: Value, apply: (Action, Value) -> Value, ghost first: Option<Hook>,
                             ghost fs0: Arena, ghost hks0: map<HookId, Hook>, ghost h0: nat, ghost states: seq<Value>)
      returns (state: Value)
      requires Valid() && id in fs0 && wipFiber == Some(id) && hookIndex == 0
      requires fibers == fs0[id := fs0[id].(hooks := Handles(h0, |states|))]
      requires hooks == hks0 + NewCells(h0, states) && nextHook == h0 + |states|
      requires OldHook(fibers, hooks, wipFiber, hookIndex) == first
      modifies this
      ensures Valid() && wipFiber == Some(id) && hookIndex == 0
      ensures state == StartState(first, initial, apply)
      ensures fibers == fs0[id := fs0[id].(hooks := Handles(h0, |states| + 1))]
      ensures hooks == hks0 + NewCells(h0, states + [state]) && nextHook == h0 + |states| + 1
      ensures OldHook(fibers, hooks, wipFiber, hookIndex) == first
      ensures nextFiber == old(nextFiber) && dom == old(dom) && nextNode == old(nextNode)
      ensures nextUnitOfWork == old(nextUnitOfWork) && currentRoot == old(currentRoot) && wipRoot == old(wipRoot)
      ensures deletions == old(deletions)
    {
      ghost var fsPrev, hkPrev := fibers, hooks;
      assert nextHook !in hooks;
      var cell;
      state, cell := UseState(initial, apply);
      ComponentStep(fs0, hks0, h0, states, id, first, fsPrev, hkPrev, cell, state, fibers, hooks);
    }

    /**
     * `performUnitOfWork(fiber)`: render a component or update a host fiber,
     * then return the next unit: the fiber's first child, else the sibling of
     * the nearest fiber on the path up to the root that has one, else none.
     */
    method PerformUnitOfWork(id: FiberId, app: App) returns (next: Option<FiberId>)
      requires Valid() && id in fibers
      modifies this
      ensures Valid() && id in fibers && next == Succ(fibers, id)
      ensures nextUnitOfWork == old(nextUnitOfWork) && currentRoot == old(currentRoot) && wipRoot == old(wipRoot)
      ensures DomGrows(old(dom), dom) && HooksGrow(old(hooks), hooks) && DeletionsGrow(old(deletions), deletions)
      ensures old(fibers).Keys <= fibers.Keys
    {
      ghost var d0, h0, n0, ds0 := dom, hooks, nextNode, deletions;
      ghost var f := fibers[id];
      if IsComponent(fibers[id].ftype) {
        UpdateFunctionComponent(id, app);
        NewCellsGrow(h0, old(nextHook), ComponentStates(OldHook(old(fibers), h0, Some(id), 0),
          app.initials(f.ftype.value.id, f.props), app.apply));
      } else {
        UpdateHostComponent(id);
        if f.dom.None? {
          AddNodeGrows(d0, n0, CreateDom(f.ftype, f.props));
        }
      }
      PushedGrows(ds0);
      next := NextUnit(fibers, id);
    }

    /**
     * `workloop(deadline)`: perform units of work while there is one and time
     * remains (`budget` units are allowed; at least one is performed if there
     * is work), then commit when the render is complete. Returns the number of
     * units performed and the exception the commit threw, if any; `rendered`
     * is the document as the units left it, which is what the commit starts from.
     */
    method WorkLoop(budget: nat, app: App) returns (units: nat, err: Option<DomError>, ghost rendered: Store)
      requires Valid()
      modifies this
      ensures Valid()
      ensures old(nextUnitOfWork).Some? ==> 1 <= units
      ensures units <= budget || units <= 1
      ensures nextUnitOfWork.Some? ==> budget <= units
      ensures if nextUnitOfWork.None? && old(wipRoot).Some? then
          if err.None? then currentRoot == old(wipRoot) && wipRoot.None?
          else currentRoot == old(currentRoot) && wipRoot == old(wipRoot)
        else err.None? && currentRoot == old(currentRoot) && wipRoot == old(wipRoot)
      ensures DomGrows(old(dom), rendered) && HooksGrow(old(hooks), hooks) && DeletionsGrow(old(deletions), deletions)
      ensures old(fibers).Keys <= fibers.Keys && rendered.Keys == dom.Keys
      ensures if nextUnitOfWork.None? && old(wipRoot).Some? then
          && old(wipRoot).value in fibers && Commit.Ready(fibers, nextFiber, rendered) && AllIn(fibers, deletions)
          && var o := Commit.CommitRoot(fibers, nextFiber, rendered, deletions, old(wipRoot));
             dom == o.store && err == ErrorOf(o)
        else dom == rendered
      ensures old(nextUnitOfWork).None? ==>
        && units == 0 && rendered == old(dom)
        && fibers == old(fibers) && nextFiber == old(nextFiber) && hooks == old(hooks) && nextHook == old(nextHook)
        && nextNode == old(nextNode) && deletions == old(deletions) && wipFiber == old(wipFiber) && hookIndex == old(hookIndex)
      ensures old(nextUnitOfWork).None? && old(wipRoot).None? ==> dom == old(dom) && err.None?
    {
      units := PerformUnits(budget, app);
      rendered := dom;
      err := None;
      if nextUnitOfWork.None? && wipRoot.Some? {
        err := CommitRoot();
      }
    }

    /** The loop of `workloop`: perform units of work while there is one and the budget is not spent. */
    method PerformUnits(budget: nat, app: App) returns (units: nat)
      requires Valid()
      modifies this
      ensures Valid()
      ensures old(nextUnitOfWork).Some? ==> 1 <= units
      ensures units <= budget || units <= 1
      ensures nextUnitOfWork.Some? ==> budget <= units
      ensures currentRoot == old(currentRoot) && wipRoot == old(wipRoot)
      ensures DomGrows(old(dom), dom) && HooksGrow(old(hooks), hooks) && DeletionsGrow(old(deletions), deletions)
      ensures old(fibers).Keys <= fibers.Keys
      ensures old(nextUnitOfWork).None? ==>
        && units == 0 && nextUnitOfWork.None? && dom == old(dom)
        && fibers == old(fibers) && nextFiber == old(nextFiber) && hooks == old(hooks) && nextHook == old(nextHook)
        && nextNode == old(nextNode) && deletions == old(deletions) && wipFiber == old(wipFiber) && hookIndex == old(hookIndex)
    {
      units := 0;
      var shouldYield := false;
      while nextUnitOfWork.Some? && !shouldYield
        invariant Valid()
        invariant currentRoot == old(currentRoot) && wipRoot == old(wipRoot)
        invariant old(nextUnitOfWork).Some? && units == 0 ==> nextUnitOfWork.Some? && !shouldYield
        invariant !shouldYield ==> units < budget || units == 0
        invariant shouldYield ==> budget <= units && (units <= budget || units == 1)
        invariant units <= budget || units <= 1
        invariant DomGrows(old(dom), dom) && HooksGrow(old(hooks), hooks) && DeletionsGrow(old(deletions), deletions)
        invariant old(fibers).Keys <= fibers.Keys
        invariant old(nextUnitOfWork).None? ==> units == 0
        invariant units == 0 ==>
          && nextUnitOfWork == old(nextUnitOfWork) && dom == old(dom)
          && fibers == old(fibers) && nextFiber == old(nextFiber) && hooks == old(hooks) && nextHook == old(nextHook)
          && nextNode == old(nextNode) && deletions == old(deletions) && wipFiber == old(wipFiber) && hookIndex == old(hookIndex)
        decreases if shouldYield then 0 else budget + 1 - units
      {
        ghost var d1, h1, ds1 := dom, hooks, deletions;
        nextUnitOfWork := PerformUnitOfWork(nextUnitOfWork.value, app);
        GrowsTrans(old(dom), d1, dom, old(hooks), h1, hooks, old(deletions), ds1, deletions);
        units := units + 1;
        shouldYield := budget - units < 1;
      }
    }

    /**
     * `commitRoot()`: commit every fiber on the deletions list, then the new
     * tree below the work-in-progress root; the root becomes the current one
     * and no render is in progress. An exception leaves both roots as they were
     * (and the document as far as the commit got).
     */
    method CommitRoot() returns (err: Option<DomError>)
      requires Valid()
      modifies this
      ensures Valid()
      ensures var o := Commit.CommitRoot(old(fibers), old(nextFiber), old(dom), old(deletions), old(wipRoot));
        && dom == o.store && err == ErrorOf(o)
        && (if o.Done? then currentRoot == old(wipRoot) && wipRoot.None?
            else currentRoot == old(currentRoot) && wipRoot == old(wipRoot))
      ensures fibers == old(fibers) && nextFiber == old(nextFiber) && hooks == old(hooks) && nextHook == old(nextHook)
      ensures nextNode == old(nextNode) && nextUnitOfWork == old(nextUnitOfWork) && deletions == old(deletions)
      ensures wipFiber == old(wipFiber) && hookIndex == old(hookIndex)
    {
      Commit.CommitRootConsistent(fibers, nextFiber, dom, deletions, wipRoot);
      ghost var o := Commit.CommitRoot(fibers, nextFiber, dom, deletions, wipRoot);
      if deletions.Some? {
        err := CommitDeletions(deletions.value);
        if err.Some? {
          return;
        }
      }
      err := CommitWork(Commit.RootChild(fibers, wipRoot));
      if err.Some? {
        return;
      }
      currentRoot := wipRoot;
      wipRoot := None;
    }

    /** `deletions.forEach(commitWork)`, stopping at the first exception. */
    method CommitDeletions(ds: seq<FiberId>) returns (err: Option<DomError>)
      requires Commit.Ready(fibers, nextFiber, dom) && forall x :: 0 <= x < |ds| ==> ds[x] in fibers
      modifies this
      ensures DomOnly()
      ensures var o := Commit.CommitAll(fibers, nextFiber, old(dom), ds); dom == o.store && err == ErrorOf(o)
    {
      var i := 0;
      while i < |ds|
        invariant i <= |ds| && DomOnly() && dom.Keys == old(dom).Keys
        invariant Commit.CommitAll(fibers, nextFiber, old(dom), ds) == Commit.CommitAll(fibers, nextFiber, dom, ds[i..])
      {
        assert ds[i..][1..] == ds[i + 1..];
        err := CommitWork(Some(ds[i]));
        if err.Some? {
          return;
        }
        i := i + 1;
      }
      assert ds[i..] == [];
      err := None;
    }

    /** Nothing but the document changes. */
    twostate predicate DomOnly()
      reads this
    {
      && fibers == old(fibers) && nextFiber == old(nextFiber) && hooks == old(hooks) && nextHook == old(nextHook)
      && nextNode == old(nextNode) && nextUnitOfWork == old(nextUnitOfWork) && currentRoot == old(currentRoot)
      && wipRoot == old(wipRoot) && deletions == old(deletions) && wipFiber == old(wipFiber)
      && hookIndex == old(hookIndex)
    }

    /**
     * `commitWork(fiber)`: apply the fiber's effect against the node of its
     * nearest ancestor that has one, then commit its child, then its sibling.
     */
    method CommitWork(fiber: Option<FiberId>) returns (err: Option<DomError>)
      requires Commit.Ready(fibers, nextFiber, dom) && In(fibers, fiber)
      modifies this
      ensures DomOnly()
      ensures var o := Commit.CommitWork(fibers, nextFiber, old(dom), fiber); dom == o.store && err == ErrorOf(o)
      decreases if fiber.Some? then nextFiber - fiber.value else 0
    {
      if fiber.None? {
        return None;
      }
      var f := fibers[fiber.value];
      err := CommitEffect(fiber.value);
      if err.Some? {
        return;
      }
      err := CommitWork(f.child);
      if err.Some? {
        return;
      }
      err := CommitWork(f.sibling);
    }

    /**
     * The first part of `commitWork(fiber)`: find the node of the nearest
     * ancestor that has one and, if both it and the fiber's node exist, append,
     * delete or update by the effect tag.
     */
    method CommitEffect(fiber: FiberId) returns (err: Option<DomError>)
      requires Commit.Ready(fibers, nextFiber, dom) && fiber in fibers
      modifies this
      ensures DomOnly()
      ensures var o := Commit.Effect(fibers, nextFiber, old(dom), fiber); dom == o.store && err == ErrorOf(o)
    {
      var f := fibers[fiber];
      var domParent := FindDomParent(fibers, fiber);
      Commit.NearestDomInStore(fibers, dom, f.parent);
      ghost var o := Commit.Effect(fibers, nextFiber, dom, fiber);
      err := None;
      if f.dom.Some? && domParent.Some? {
        if f.effectTag == Some(Placement) {
          assert o == AppendChild(dom, domParent.value, f.dom.value);
          err := CommitPlacement(domParent.value, f.dom.value);
        } else if f.effectTag == Some(Delete) {
          assert o == Commit.CommitDeletion(fibers, nextFiber, dom, fiber, domParent.value);
          err := CommitDeletion(fiber, domParent.value);
        } else if f.effectTag == Some(Update) {
          assert o == Done(Commit.UpdateAt(dom, f.dom.value, Commit.AltProps(fibers, f), f.props));
          CommitUpdate(f.dom.value, Commit.AltProps(fibers, f), f.props);
        }
      }
    }

    /** The UPDATE effect: `updateDom(fiber.dom, fiber.alternate.props, fiber.props)`. */
    method CommitUpdate(node: NodeId, prev: Option<Props>, next: Props)
      requires node in dom
      modifies this
      ensures DomOnly()
      ensures dom == Commit.UpdateAt(old(dom), node, prev, next)
    {
      var n := UpdateDom(dom[node], prev, Some(next));
      dom := dom[node := n];
    }

    /** The PLACEMENT effect: `domParent.appendChild(fiber.dom)`. */
    method CommitPlacement(domParent: NodeId, node: NodeId) returns (err: Option<DomError>)
      requires domParent in dom && node in dom
      modifies this
      ensures DomOnly()
      ensures var o := AppendChild(old(dom), domParent, node); dom == o.store && err == ErrorOf(o)
    {
      var o := AppendChild(dom, domParent, node);
      dom := o.store;
      err := ErrorOf(o);
    }

    /**
     * `commitDeletion(fiber, domParent)`: remove the fiber's node from
     * `domParent`, or pass the deletion to the fiber's first child.
     */
    method CommitDeletion(fiber: FiberId, domParent: NodeId) returns (err: Option<DomError>)
      requires Commit.Ready(fibers, nextFiber, dom) && fiber in fibers && domParent in dom
      modifies this
      ensures DomOnly()
      ensures var o := Commit.CommitDeletion(fibers, nextFiber, old(dom), fiber, domParent);
        dom == o.store && err == ErrorOf(o)
      decreases nextFiber - fiber
    {
      var f := fibers[fiber];
      if f.dom.Some? {
        var o := RemoveChild(dom, domParent, f.dom.value);
        dom := o.store;
        err := ErrorOf(o);
      } else if f.child.Some? {
        err := CommitDeletion(f.child.value, domParent);
      } else {
        err := None;
      }
    }
  }

  /** One more call extends the handles of the fiber's hooks by the next handle. */
  lemma HandlesSnoc(h0: nat, i: nat)
    ensures Handles(h0, i) + [h0 + i] == Handles(h0, i + 1)
  {
  }

  /**
   * One `useState` call of a component, on values: the fiber's hook list and
   * the hook store grow by the fresh cell, and the cell the fiber recovers
   * stays the same.
   */
  lemma ComponentStep(fs0: Arena, hks0: map<HookId, Hook>, h0: nat, states: seq<Value>, id: FiberId,
                      first: Option<Hook>, fsPrev: Arena, hkPrev: map<HookId, Hook>, cell: HookId, state: Value,
                      fs1: Arena, hk1: map<HookId, Hook>)
    requires id in fs0 && fsPrev == fs0[id := fs0[id].(hooks := Handles(h0, |states|))]
    requires hkPrev == hks0 + NewCells(h0, states) && cell == h0 + |states| && cell !in hkPrev
    requires fs1 == fsPrev[id := fsPrev[id].(hooks := fsPrev[id].hooks + [cell])]
    requires hk1 == hkPrev[cell := Hook(state, [])]
    requires Linked(fsPrev) && HookRefs(fsPrev, hkPrev.Keys) && Linked(fs1) && HookRefs(fs1, hk1.Keys)
    requires OldHook(fsPrev, hkPrev, Some(id), 0) == first
    ensures fs1 == fs0[id := fs0[id].(hooks := Handles(h0, |states| + 1))]
    ensures hk1 == hks0 + NewCells(h0, states + [state])
    ensures OldHook(fs1, hk1, Some(id), 0) == first
  {
    HandlesSnoc(h0, |states|);
    HooksReplaced(fs0, id, Handles(h0, |states|), cell);
    NewCellsSnoc(hks0, h0, states, state);
    OldHookIgnoresNewCell(fsPrev, hkPrev, cell, Hook(state, []), id);
    OldHookIgnoresOwnHooks(fsPrev, hk1, id, fsPrev[id].hooks + [cell]);
  }

  /** Setting a fiber's hook list twice is setting it once to the second list. */
  lemma HooksSetTwice(fs0: Arena, id: FiberId, a: seq<HookId>, b: seq<HookId>)
    requires id in fs0
    ensures var fs := fs0[id := fs0[id].(hooks := a)];
      fs[id := fs[id].(hooks := b)] == fs0[id := fs0[id].(hooks := b)]
  {
  }

  /** Replacing a fiber's hook list twice is replacing it once with the last list. */
  lemma HooksReplaced(fs0: Arena, id: FiberId, hs: seq<HookId>, cell: HookId)
    requires id in fs0
    ensures var fs := fs0[id := fs0[id].(hooks := hs)];
      fs[id := fs[id].(hooks := fs[id].hooks + [cell])] == fs0[id := fs0[id].(hooks := hs + [cell])]
  {
  }

  /** One more state stores one more fresh cell. */
  lemma NewCellsSnoc(hks0: map<HookId, Hook>, h0: nat, states: seq<Value>, state: Value)
    ensures (hks0 + NewCells(h0, states))[h0 + |states| := Hook(state, [])] == hks0 + NewCells(h0, states + [state])
  {
    assert (states + [state])[..|states|] == states;
  }

  /** One more call returns the state recovered from the same first cell. */
  lemma ComponentStatesSnoc(first: Option<Hook>, initials: seq<Value>, i: nat, apply: (Action, Value) -> Value)
    requires i < |initials|
    ensures ComponentStates(first, initials[..i], apply) + [StartState(first, initials[i], apply)] ==
            ComponentStates(first, initials[..i + 1], apply)
  {
    assert initials[..i + 1][..i] == initials[..i];
  }

  /** Changing the hooks of the fiber being rendered does not change the cell it recovers from its alternate. */
  lemma OldHookIgnoresOwnHooks(fs: Arena, hks: map<HookId, Hook>, id: FiberId, hs: seq<HookId>)
    requires Linked(fs) && HookRefs(fs, hks.Keys) && id in fs
    requires Linked(fs[id := fs[id].(hooks := hs)]) && HookRefs(fs[id := fs[id].(hooks := hs)], hks.Keys)
    ensures OldHook(fs[id := fs[id].(hooks := hs)], hks, Some(id), 0) == OldHook(fs, hks, Some(id), 0)
  {
    assert LinksOk(fs, id, fs[id]);
  }

  /** Storing a fresh cell does not change the cell a fiber recovers. */
  lemma OldHookIgnoresNewCell(fs: Arena, hks: map<HookId, Hook>, h: HookId, cell: Hook, id: FiberId)
    requires Linked(fs) && HookRefs(fs, hks.Keys) && id in fs && h !in hks
    ensures HookRefs(fs, hks[h := cell].Keys)
    ensures OldHook(fs, hks[h := cell], Some(id), 0) == OldHook(fs, hks, Some(id), 0)
  {
  }
}
