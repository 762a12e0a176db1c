/**
 * The commit phase: `commitWork`, `commitDeletion` and `commitRoot` as
 * functions from a DOM store to an `Outcome`. During a commit the fiber arena
 * is only read, so it is a parameter here; the methods of `Scheduler.Didact`
 * that perform the commit are proved against these functions.
 */
module Commit {
  import opened Wrappers
  import opened Elements
  import opened HostDom
  import opened Fibers

  /** The arena a commit reads: linked, below the allocator, and naming only nodes of the store. */
  ghost predicate Ready(fs: Arena, bound: nat, s: Store)
  {
    Linked(fs) && Below(fs, bound) && DomRefs(fs, s.Keys)
  }

  /** `fiber.alternate?.props`. */
  function AltProps(fs: Arena, f: Fiber): Option<Props>
    requires f.alternate.Some? ==> f.alternate.value in fs
  {
    if f.alternate.Some? then Some(fs[f.alternate.value].props) else None
  }

  /**
   * `commitDeletion(fiber, domParent)`: remove the fiber's node from
   * `domParent`; a fiber without a node passes the deletion to its first
   * child, and to nothing when it has none.
   */
  function CommitDeletion(fs: Arena, bound: nat, s: Store, id: FiberId, p: NodeId): (r: Outcome)
    requires Ready(fs, bound, s) && id in fs && p in s
    ensures r.store.Keys == s.Keys
    decreases bound - id
  {
    var f := fs[id];
    if f.dom.Some? then RemoveChild(s, p, f.dom.value)
    else if f.child.Some? then CommitDeletion(fs, bound, s, f.child.value, p)
    else Done(s)
  }

  /** The node `updateDom` leaves at `n`. */
  function UpdateAt(s: Store, n: NodeId, prev: Option<Props>, next: Props): (r: Store)
    requires n in s
    ensures r.Keys == s.Keys
  {
    s[n := UpdatedNode(s[n], prev, Some(next))]
  }

  /**
   * The effect `commitWork` applies for one fiber, before it recurses: nothing
   * unless the fiber has a node and some ancestor has one; otherwise, by the
   * effect tag, append the node to the nearest ancestor's node, delete it,
   * or diff its props against the alternate's.
   */
  function Effect(fs: Arena, bound: nat, s: Store, id: FiberId): (r: Outcome)
    requires Ready(fs, bound, s) && id in fs
    ensures r.store.Keys == s.Keys
  {
    var f := fs[id];
    var p := NearestDom(fs, f.parent);
    NearestDomInStore(fs, s, f.parent);
    if f.dom.None? || p.None? then Done(s)
    else
      match f.effectTag
      case Some(Placement) => AppendChild(s, p.value, f.dom.value)
      case Some(Delete) => CommitDeletion(fs, bound, s, id, p.value)
      case Some(Update) => Done(UpdateAt(s, f.dom.value, AltProps(fs, f), f.props))
      case None => Done(s)
  }

  /** The node `NearestDom` finds belongs to the store. */
  lemma NearestDomInStore(fs: Arena, s: Store, p: Option<FiberId>)
    requires Linked(fs) && DomRefs(fs, s.Keys) && (p.Some? ==> p.value in fs)
    ensures NearestDom(fs, p).Some? ==> NearestDom(fs, p).value in s
  {
  }

  /**
   * `commitWork(fiber)`: the fiber's effect, then `commitWork(fiber.child)`,
   * then `commitWork(fiber.sibling)`. A DOM exception ends the whole commit
   * with the mutations made so far.
   */
  function CommitWork(fs: Arena, bound: nat, s: Store, f: Option<FiberId>): (r: Outcome)
    requires Ready(fs, bound, s) && (f.Some? ==> f.value in fs)
    ensures r.store.Keys == s.Keys
    decreases if f.Some? then bound - f.value else 0
  {
    if f.None? then Done(s)
    else
      var o := Effect(fs, bound, s, f.value);
      if o.Threw? then o
      else
        var o2 := CommitWork(fs, bound, o.store, fs[f.value].child);
        if o2.Threw? then o2
        else CommitWork(fs, bound, o2.store, fs[f.value].sibling)
  }

  /** `deletions.forEach(commitWork)`. */
  function CommitAll(fs: Arena, bound: nat, s: Store, ds: seq<FiberId>): (r: Outcome)
    requires Ready(fs, bound, s) && forall x :: 0 <= x < |ds| ==> ds[x] in fs
    ensures r.store.Keys == s.Keys
    decreases |ds|
  {
    if ds == [] then Done(s)
    else
      var o := CommitWork(fs, bound, s, Some(ds[0]));
      if o.Threw? then o else CommitAll(fs, bound, o.store, ds[1..])
  }

  /** The first child of the work-in-progress root: `wipRoot?.child`. */
  function RootChild(fs: Arena, wipRoot: Option<FiberId>): (r: Option<FiberId>)
    requires Linked(fs) && (wipRoot.Some? ==> wipRoot.value in fs)
    ensures r.Some? ==> r.value in fs
  {
    if wipRoot.Some? then fs[wipRoot.value].child else None
  }

  /** The DOM part of `commitRoot`: the deletions first (when the list exists), then the new tree. */
  function CommitRoot(fs: Arena, bound: nat, s: Store, deletions: Option<seq<FiberId>>, wipRoot: Option<FiberId>): (r: Outcome)
    requires Ready(fs, bound, s) && (wipRoot.Some? ==> wipRoot.value in fs)
    requires deletions.Some? ==> forall x :: 0 <= x < |deletions.value| ==> deletions.value[x] in fs
    ensures r.store.Keys == s.Keys
  {
    var o := if deletions.Some? then CommitAll(fs, bound, s, deletions.value) else Done(s);
    if o.Threw? then o else CommitWork(fs, bound, o.store, RootChild(fs, wipRoot))
  }

  // ---------------------------------------------------------------------
  // What one effect does
  // ---------------------------------------------------------------------

  /**
   * `commitWork` acts only on a fiber that has a node and an ancestor with a
   * node. PLACEMENT makes the node the last child of the nearest such
   * ancestor's node (throwing only where `appendChild` does); UPDATE applies
   * `updateDom` with the alternate's props to that node alone, changing only
   * its attributes and listeners, never a child list or parent.
   */
  lemma EffectByTag(fs: Arena, bound: nat, s: Store, id: FiberId)
    requires Ready(fs, bound, s) && id in fs
    ensures var f, p, r := fs[id], NearestDom(fs, fs[id].parent), Effect(fs, bound, s, id);
      && (f.dom.None? || p.None? || f.effectTag.None? ==> r == Done(s))
      && (f.dom.Some? && p.Some? && f.effectTag == Some(Placement) ==>
            NearestDom(fs, f.parent).value in s && f.dom.value in s &&
            r == AppendChild(s, p.value, f.dom.value) &&
            (r.Threw? <==> p.value == f.dom.value || s[p.value].kind.TextNode?) &&
            (r.Done? ==> r.store[f.dom.value].parent == p &&
                         r.store[p.value].children[|r.store[p.value].children| - 1] == f.dom.value))
      && (f.dom.Some? && p.Some? && f.effectTag == Some(Update) ==>
            r.Done? &&
            f.dom.value in s &&
            r.store == s[f.dom.value := UpdatedNode(s[f.dom.value], AltProps(fs, f), Some(f.props))] &&
            forall n :: n in s ==> r.store[n].children == s[n].children && r.store[n].parent == s[n].parent &&
                                   r.store[n].kind == s[n].kind)
  {
    NearestDomInStore(fs, s, fs[id].parent);
  }

  /**
   * `commitDeletion` quirk: `commitWork` calls it only for a fiber that has a
   * node, so its branch that passes the deletion to a child never runs. A
   * DELETE effect is exactly one `removeChild` of the fiber's own node; a
   * deleted fiber without a node (a component) removes nothing, so the nodes of
   * its host descendants stay attached.
   */
  lemma DeleteIsOneRemoveChild(fs: Arena, bound: nat, s: Store, id: FiberId)
    requires Ready(fs, bound, s) && id in fs && fs[id].effectTag == Some(Delete)
    ensures var f, p := fs[id], NearestDom(fs, fs[id].parent);
      Effect(fs, bound, s, id) ==
        if f.dom.Some? && p.Some? then RemoveChild(s, p.value, f.dom.value) else Done(s)
    ensures fs[id].dom.None? ==> Effect(fs, bound, s, id) == Done(s)
  {
    NearestDomInStore(fs, s, fs[id].parent);
  }

  // ---------------------------------------------------------------------
  // The commit keeps the document consistent
  // ---------------------------------------------------------------------

  /** Changing one node's attributes and listeners keeps the store consistent. */
  lemma UpdateAtConsistent(s: Store, n: NodeId, prev: Option<Props>, next: Props)
    requires Consistent(s) && n in s
    ensures Consistent(UpdateAt(s, n, prev, next))
  {
    var r := UpdateAt(s, n, prev, next);
    assert forall x :: x in r ==> r[x].children == s[x].children && r[x].parent == s[x].parent;
  }

  lemma CommitDeletionConsistent(fs: Arena, bound: nat, s: Store, id: FiberId, p: NodeId)
    requires Ready(fs, bound, s) && id in fs && p in s && Consistent(s)
    ensures Consistent(CommitDeletion(fs, bound, s, id, p).store)
    decreases bound - id
  {
    var f := fs[id];
    if f.dom.Some? {
      RemoveChildDetaches(s, p, f.dom.value);
    } else if f.child.Some? {
      CommitDeletionConsistent(fs, bound, s, f.child.value, p);
    }
  }

  /** Every effect keeps the store consistent, whether it completes or throws. */
  lemma EffectConsistent(fs: Arena, bound: nat, s: Store, id: FiberId)
    requires Ready(fs, bound, s) && id in fs && Consistent(s)
    ensures Consistent(Effect(fs, bound, s, id).store)
  {
    var f := fs[id];
    var p := NearestDom(fs, f.parent);
    NearestDomInStore(fs, s, f.parent);
    if f.dom.Some? && p.Some? {
      match f.effectTag
      case Some(Placement) =>
        if AppendChild(s, p.value, f.dom.value).Done? {
          AppendChildMoves(s, p.value, f.dom.value);
        }
      case Some(Delete) => CommitDeletionConsistent(fs, bound, s, id, p.value);
      case Some(Update) => UpdateAtConsistent(s, f.dom.value, AltProps(fs, f), f.props);
      case None =>
    }
  }

  /**
   * A whole `commitWork` keeps the DOM consistent: every node listed as a
   * child names its lister as parent, and a node is listed once by its parent
   * (also in the store an exception leaves behind).
   */
  lemma {:induction false} CommitWorkConsistent(fs: Arena, bound: nat, s: Store, f: Option<FiberId>)
    requires Ready(fs, bound, s) && (f.Some? ==> f.value in fs) && Consistent(s)
    ensures Consistent(CommitWork(fs, bound, s, f).store)
    decreases if f.Some? then bound - f.value else 0
  {
    if f.Some? {
      var o := Effect(fs, bound, s, f.value);
      EffectConsistent(fs, bound, s, f.value);
      if o.Done? {
        var o2 := CommitWork(fs, bound, o.store, fs[f.value].child);
        CommitWorkConsistent(fs, bound, o.store, fs[f.value].child);
        if o2.Done? {
          CommitWorkConsistent(fs, bound, o2.store, fs[f.value].sibling);
        }
      }
    }
  }

  lemma {:induction false} CommitAllConsistent(fs: Arena, bound: nat, s: Store, ds: seq<FiberId>)
    requires Ready(fs, bound, s) && (forall x :: 0 <= x < |ds| ==> ds[x] in fs) && Consistent(s)
    ensures Consistent(CommitAll(fs, bound, s, ds).store)
    decreases |ds|
  {
    if ds != [] {
      var o := CommitWork(fs, bound, s, Some(ds[0]));
      CommitWorkConsistent(fs, bound, s, Some(ds[0]));
      if o.Done? {
        CommitAllConsistent(fs, bound, o.store, ds[1..]);
      }
    }
  }

  /** `commitRoot` keeps the DOM consistent. */
  lemma CommitRootConsistent(fs: Arena, bound: nat, s: Store, deletions: Option<seq<FiberId>>, wipRoot: Option<FiberId>)
    requires Ready(fs, bound, s) && (wipRoot.Some? ==> wipRoot.value in fs) && Consistent(s)
    requires deletions.Some? ==> forall x :: 0 <= x < |deletions.value| ==> deletions.value[x] in fs
    ensures Consistent(CommitRoot(fs, bound, s, deletions, wipRoot).store)
  {
    var o := if deletions.Some? then CommitAll(fs, bound, s, deletions.value) else Done(s);
    if deletions.Some? {
      CommitAllConsistent(fs, bound, s, deletions.value);
    }
    if o.Done? {
      CommitWorkConsistent(fs, bound, o.store, RootChild(fs, wipRoot));
    }
  }

  // ---------------------------------------------------------------------
  // commitWork is a preorder pass
  // ---------------------------------------------------------------------

  /** The effects of `ids`, one after the other, stopping at the first exception. */
  function ApplyAll(fs: Arena, bound: nat, s: Store, ids: seq<FiberId>): (r: Outcome)
    requires Ready(fs, bound, s) && forall x :: 0 <= x < |ids| ==> ids[x] in fs
    ensures r.store.Keys == s.Keys
    decreases |ids|
  {
    if ids == [] then Done(s)
    else
      var o := Effect(fs, bound, s, ids[0]);
      if o.Threw? then o else ApplyAll(fs, bound, o.store, ids[1..])
  }

  /** Applying a concatenation applies the first part, then (if it did not throw) the second. */
  lemma {:induction false} ApplyAllAppend(fs: Arena, bound: nat, s: Store, a: seq<FiberId>, b: seq<FiberId>)
    requires Ready(fs, bound, s) && (forall x :: 0 <= x < |a| ==> a[x] in fs) && (forall x :: 0 <= x < |b| ==> b[x] in fs)
    ensures var o := ApplyAll(fs, bound, s, a);
      ApplyAll(fs, bound, s, a + b) == if o.Threw? then o else ApplyAll(fs, bound, o.store, b)
    decreases |a|
  {
    if a == [] {
      assert a + b == b;
    } else {
      assert (a + b)[0] == a[0];
      assert (a + b)[1..] == a[1..] + b;
      var o := Effect(fs, bound, s, a[0]);
      if o.Done? {
        ApplyAllAppend(fs, bound, o.store, a[1..], b);
      }
    }
  }

  /** Continue with `commitWork(next)` unless `o` threw. */
  function AndThen(fs: Arena, bound: nat, o: Outcome, next: Option<FiberId>): Outcome
    requires Ready(fs, bound, o.store) && (next.Some? ==> next.value in fs)
  {
    if o.Threw? then o else CommitWork(fs, bound, o.store, next)
  }

  /** Every handle of a subtree's preorder names a fiber of the arena. */
  lemma {:induction false} PreorderInArena(fs: Arena, t: Tree, parent: Option<FiberId>, next: Option<FiberId>)
    requires Encodes(fs, t, parent, next)
    ensures forall x :: 0 <= x < |Preorder(t)| ==> Preorder(t)[x] in fs
    decreases t, |t.kids| + 1
  {
    KidsInArena(fs, t, parent, next, 0);
  }

  lemma {:induction false} KidsInArena(fs: Arena, t: Tree, parent: Option<FiberId>, next: Option<FiberId>, j: nat)
    requires Encodes(fs, t, parent, next)
    ensures forall x :: 0 <= x < |PreorderKids(t, j)| ==> PreorderKids(t, j)[x] in fs
    decreases t, |t.kids| - j
  {
    if j < |t.kids| {
      assert Encodes(fs, t.kids[j], Some(t.id), NextKid(t.kids, j));
      PreorderInArena(fs, t.kids[j], Some(t.id), NextKid(t.kids, j));
      KidsInArena(fs, t, parent, next, j + 1);
    }
  }

  /**
   * `commitWork` on a subtree the arena encodes applies the effects of its
   * fibers in depth-first preorder, then goes on with the subtree's next sibling.
   */
  lemma {:induction false} CommitWorkIsPreorder(fs: Arena, bound: nat, s: Store, t: Tree, parent: Option<FiberId>, next: Option<FiberId>)
    requires Ready(fs, bound, s) && Encodes(fs, t, parent, next)
    ensures PreorderIds(fs, t, parent, next)
    ensures CommitWork(fs, bound, s, Some(t.id)) == AndThen(fs, bound, ApplyAll(fs, bound, s, Preorder(t)), next)
    decreases t, |t.kids| + 1
  {
    PreorderInArena(fs, t, parent, next);
    KidsInArena(fs, t, parent, next, 0);
    var o := Effect(fs, bound, s, t.id);
    var pk := PreorderKids(t, 0);
    assert Preorder(t) == [t.id] + pk;
    assert Preorder(t)[1..] == pk;
    if o.Done? {
      if t.kids == [] {
        assert pk == [];
      } else {
        KidsCommit(fs, bound, o.store, t, parent, next, 0);
      }
    }
  }

  /** The handles of a subtree's preorder are fibers of the arena (a precondition of `ApplyAll`). */
  ghost predicate PreorderIds(fs: Arena, t: Tree, parent: Option<FiberId>, next: Option<FiberId>)
  {
    forall x :: 0 <= x < |Preorder(t)| ==> Preorder(t)[x] in fs
  }

  /** `commitWork` on the `j`-th kid applies the preorder of that kid and all later ones. */
  lemma {:induction false} KidsCommit(fs: Arena, bound: nat, s: Store, t: Tree, parent: Option<FiberId>, next: Option<FiberId>, j: nat)
    requires Ready(fs, bound, s) && Encodes(fs, t, parent, next) && j < |t.kids|
    ensures forall x :: 0 <= x < |PreorderKids(t, j)| ==> PreorderKids(t, j)[x] in fs
    ensures t.kids[j].id in fs
    ensures CommitWork(fs, bound, s, Some(t.kids[j].id)) == ApplyAll(fs, bound, s, PreorderKids(t, j))
    decreases t, |t.kids| - j
  {
    KidsInArena(fs, t, parent, next, j);
    var c := t.kids[j];
    var nk := NextKid(t.kids, j);
    assert Encodes(fs, c, Some(t.id), nk);
    CommitWorkIsPreorder(fs, bound, s, c, Some(t.id), nk);
    var pc := Preorder(c);
    var rest := PreorderKids(t, j + 1);
    assert PreorderKids(t, j) == pc + rest;
    KidsInArena(fs, t, parent, next, j + 1);
    ApplyAllAppend(fs, bound, s, pc, rest);
    var o := ApplyAll(fs, bound, s, pc);
    if o.Done? {
      if j + 1 < |t.kids| {
        KidsCommit(fs, bound, o.store, t, parent, next, j + 1);
      } else {
        assert rest == [];
      }
    }
  }

  // ---------------------------------------------------------------------
  // Deleted siblings are visited twice
  // ---------------------------------------------------------------------

  /** A fiber of the old tree for the example below. */
  function OldFiber(parent: Option<FiberId>, child: Option<FiberId>, sibling: Option<FiberId>, dom: NodeId,
                    tag: Option<EffectTag>): Fiber
  {
    Fiber(Some(Tag("p")), Props(map[], []), parent, child, sibling, Some(dom), None, tag, [])
  }

  /** The old tree of the example below: a parent (fiber 0, node 0) and two children, both deleted. */
  function TwoDeleted(): Arena
  {
    map[0 := OldFiber(None, Some(1), None, 0, None),
        1 := OldFiber(Some(0), None, Some(2), 1, Some(Delete)),
        2 := OldFiber(Some(0), None, None, 2, Some(Delete))]
  }

  /** The document of the example: node 0 lists nodes 1 and 2. */
  function TwoChildren(): Store
  {
    map[0 := DomNode(ElementNode("div"), None, [1, 2], map[], {}),
        1 := DomNode(ElementNode("p"), Some(0), [], map[], {}),
        2 := DomNode(ElementNode("p"), Some(0), [], map[], {})]
  }

  lemma TwoDeletedReady()
    ensures Ready(TwoDeleted(), 3, TwoChildren())
    ensures NearestDom(TwoDeleted(), Some(0)) == Some(0)
  {
    var fs := TwoDeleted();
    assert LinksOk(fs, 0, fs[0]) && LinksOk(fs, 1, fs[1]) && LinksOk(fs, 2, fs[2]);
  }

  /** `commitWork(1)` removes node 1, then follows `sibling` and removes node 2 too. */
  lemma FirstDeletionRemovesBoth()
    ensures Ready(TwoDeleted(), 3, TwoChildren())
    ensures var s := TwoChildren();
      var s2 := RemoveChild(RemoveChild(s, 0, 1).store, 0, 2).store;
      CommitWork(TwoDeleted(), 3, s, Some(1)) == Done(s2) && s2[0].children == []
  {
    TwoDeletedReady();
    var fs, s := TwoDeleted(), TwoChildren();
    var s1 := RemoveChild(s, 0, 1).store;
    assert s1[0].children == [2] by {
      assert Without([1, 2], 1) == [2];
    }
    var s2 := RemoveChild(s1, 0, 2).store;
    assert s2[0].children == [] by {
      assert Without([2], 2) == [];
    }
    DeleteIsOneRemoveChild(fs, 3, s, 1);
    DeleteIsOneRemoveChild(fs, 3, s1, 2);
    assert CommitWork(fs, 3, s1, Some(2)) == Done(s2);
  }

  /**
   * Deletion quirk, on the smallest example: an old parent with two old
   * children, both deleted, so `deletions` is [1, 2]. `commitWork(1)` removes
   * both nodes; `commitWork(2)` then calls `removeChild` on a node that is no
   * longer a child, and the commit throws NotFound.
   */
  lemma LaterDeletedSiblingThrows()
    ensures Ready(TwoDeleted(), 3, TwoChildren())
    ensures var fs, s := TwoDeleted(), TwoChildren();
      CommitAll(fs, 3, s, [1]).Done? &&
      CommitAll(fs, 3, s, [1]).store[0].children == [] &&
      CommitAll(fs, 3, s, [1, 2]) == Threw(CommitAll(fs, 3, s, [1]).store, NotFound)
  {
    TwoDeletedReady();
    FirstDeletionRemovesBoth();
    var fs, s := TwoDeleted(), TwoChildren();
    var s2 := CommitWork(fs, 3, s, Some(1)).store;
    assert CommitAll(fs, 3, s, [1]) == Done(s2);
    SecondDeletionThrows(s2);
    assert [1, 2][1..] == [2];
  }

  /** Once node 0 lists no child, `commitWork(2)` throws at its `removeChild`. */
  lemma SecondDeletionThrows(s: Store)
    requires s.Keys == TwoChildren().Keys && s[0].children == []
    ensures Ready(TwoDeleted(), 3, s)
    ensures CommitAll(TwoDeleted(), 3, s, [2]) == Threw(s, NotFound)
  {
    TwoDeletedReady();
    DeleteIsOneRemoveChild(TwoDeleted(), 3, s, 2);
  }
}
