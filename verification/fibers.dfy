/**
 * Fibers in an arena: records addressed by handle, their parent / child /
 * sibling / alternate links, and the traversals the source performs over them
 * (the depth-first successor of `performUnitOfWork`, the climb of
 * `commitWork` to the nearest ancestor with a DOM node, and sibling chains).
 */
module Fibers {
  import opened Wrappers
  import opened Elements
  import opened HostDom

  type FiberId = nat
  type HookId = nat

  datatype EffectTag = Placement | Update | Delete

  /**
   * A fiber. `ftype` is `None` for the root a state setter builds (`type: null`);
   * `hooks` is empty for fibers that never ran as a component.
   */
  datatype Fiber = Fiber(
    ftype: Option<EType>,
    props: Props,
    parent: Option<FiberId>,
    child: Option<FiberId>,
    sibling: Option<FiberId>,
    dom: Option<NodeId>,
    alternate: Option<FiberId>,
    effectTag: Option<EffectTag>,
    hooks: seq<HookId>)

  type Arena = map<FiberId, Fiber>

  /**
   * Handles are handed out in increasing order, and a fiber only ever links to
   * fibers created before it (its parent, its alternate) or after it (its
   * child, its later siblings). So child and sibling handles are larger and
   * parent and alternate handles smaller: no chain of links can cycle.
   */
  predicate LinksOk(fs: Arena, id: FiberId, f: Fiber)
  {
    && (f.parent.Some? ==> f.parent.value in fs && f.parent.value < id)
    && (f.child.Some? ==> f.child.value in fs && id < f.child.value)
    && (f.sibling.Some? ==> f.sibling.value in fs && id < f.sibling.value)
    && (f.alternate.Some? ==> f.alternate.value in fs && f.alternate.value < id)
  }

  ghost predicate Linked(fs: Arena)
  {
    forall id {:trigger fs[id]} :: id in fs ==> LinksOk(fs, id, fs[id])
  }

  /** Every handle in use is below the allocator's next handle. */
  ghost predicate Below(fs: Arena, bound: nat)
  {
    forall id :: id in fs ==> id < bound
  }

  /** Every DOM handle a fiber holds names a node of the store. */
  ghost predicate DomRefs(fs: Arena, nodes: set<NodeId>)
  {
    forall id :: id in fs && fs[id].dom.Some? ==> fs[id].dom.value in nodes
  }

  /** Every hook handle a fiber holds names a hook of the hook store. */
  ghost predicate HookRefs(fs: Arena, hks: set<HookId>)
  {
    forall id, i :: id in fs && 0 <= i < |fs[id].hooks| ==> fs[id].hooks[i] in hks
  }

  /** Replacing one record by one whose links are in order keeps the arena linked. */
  lemma LinkedUpdate(fs: Arena, id: FiberId, f: Fiber)
    requires Linked(fs) && LinksOk(fs[id := f], id, f)
    ensures Linked(fs[id := f])
  {
    var r := fs[id := f];
    forall x | x in r ensures LinksOk(r, x, r[x]) {
      if x != id {
        assert LinksOk(fs, x, fs[x]);
      }
    }
  }

  // ---------------------------------------------------------------------
  // The depth-first successor (performUnitOfWork, lines after the update)
  // ---------------------------------------------------------------------

  /** The sibling of the nearest fiber on the path from `x` up to the root that has one. */
  function Climb(fs: Arena, x: FiberId): (r: Option<FiberId>)
    requires Linked(fs) && x in fs
    ensures r.Some? ==> r.value in fs
    decreases x
  {
    if fs[x].sibling.Some? then fs[x].sibling
    else if fs[x].parent.Some? then Climb(fs, fs[x].parent.value)
    else None
  }

  /** The next unit of work after `x`: its child if present, else `Climb`. */
  function Succ(fs: Arena, x: FiberId): (r: Option<FiberId>)
    requires Linked(fs) && x in fs
    ensures r.Some? ==> r.value in fs
  {
    if fs[x].child.Some? then fs[x].child else Climb(fs, x)
  }

  /** The end of `performUnitOfWork`: return the child, else climb looking for a sibling. */
  method NextUnit(fs: Arena, fiber: FiberId) returns (next: Option<FiberId>)
    requires Linked(fs) && fiber in fs
    ensures next == Succ(fs, fiber)
  {
    if fs[fiber].child.Some? {
      return fs[fiber].child;
    }
    var nextFiber: Option<FiberId> := Some(fiber);
    while nextFiber.Some?
      invariant nextFiber.Some? ==> nextFiber.value in fs && Climb(fs, nextFiber.value) == Climb(fs, fiber)
      invariant nextFiber.None? ==> Climb(fs, fiber) == None
      decreases if nextFiber.Some? then nextFiber.value + 1 else 0
    {
      var x := nextFiber.value;
      if fs[x].sibling.Some? {
        return fs[x].sibling;
      }
      if fs[x].parent.Some? {
        nextFiber := fs[x].parent;
      } else {
        nextFiber := None;
      }
    }
    return None;
  }

  // ---------------------------------------------------------------------
  // Trees encoded in the arena, and their preorder
  // ---------------------------------------------------------------------

  /** A tree of fiber handles, children in order. */
  datatype Tree = Tree(id: FiberId, kids: seq<Tree>)

  /** The sibling link the `i`-th kid must carry: the next kid, or none for the last. */
  function NextKid(kids: seq<Tree>, i: nat): Option<FiberId>
  {
    if i + 1 < |kids| then Some(kids[i + 1].id) else None
  }

  /**
   * The arena holds `t` linked as the source links fibers: the parent's `child`
   * is the first kid, kids are chained by `sibling` in order, the last kid has
   * no sibling, and every kid's `parent` is the node.
   */
  ghost predicate Encodes(fs: Arena, t: Tree, parent: Option<FiberId>, next: Option<FiberId>)
    decreases t
  {
    && t.id in fs
    && fs[t.id].parent == parent
    && fs[t.id].sibling == next
    && fs[t.id].child == (if t.kids == [] then None else Some(t.kids[0].id))
    && forall i :: 0 <= i < |t.kids| ==> Encodes(fs, t.kids[i], Some(t.id), NextKid(t.kids, i))
  }

  /** Depth-first preorder of a tree. */
  function Preorder(t: Tree): (r: seq<FiberId>)
    ensures |r| > 0 && r[0] == t.id
    decreases t, |t.kids| + 1
  {
    [t.id] + PreorderKids(t, 0)
  }

  /** Preorder of the kids of `t` from the `j`-th on. */
  function PreorderKids(t: Tree, j: nat): seq<FiberId>
    decreases t, |t.kids| - j
  {
    if j >= |t.kids| then [] else Preorder(t.kids[j]) + PreorderKids(t, j + 1)
  }

  /**
   * The successor of the `k`-th fiber of a subtree's preorder is the next one
   * in that preorder; after the last one comes what follows the whole subtree.
   */
  lemma {:induction false} PreorderSucc(fs: Arena, t: Tree, parent: Option<FiberId>, next: Option<FiberId>, k: nat)
    requires Linked(fs) && Encodes(fs, t, parent, next) && k < |Preorder(t)|
    ensures Preorder(t)[k] in fs
    ensures Succ(fs, Preorder(t)[k]) ==
              if k + 1 < |Preorder(t)| then Some(Preorder(t)[k + 1]) else Climb(fs, t.id)
    decreases t, |t.kids| + 1
  {
    if k == 0 {
      if t.kids != [] {
        assert Preorder(t)[1] == PreorderKids(t, 0)[0] == Preorder(t.kids[0])[0];
      }
    } else {
      KidsSucc(fs, t, parent, next, 0, k - 1);
    }
  }

  /** `PreorderSucc` for the kids of `t` from the `j`-th on. */
  lemma {:induction false} KidsSucc(fs: Arena, t: Tree, parent: Option<FiberId>, next: Option<FiberId>, j: nat, k: nat)
    requires Linked(fs) && Encodes(fs, t, parent, next) && k < |PreorderKids(t, j)|
    ensures PreorderKids(t, j)[k] in fs
    ensures Succ(fs, PreorderKids(t, j)[k]) ==
              if k + 1 < |PreorderKids(t, j)| then Some(PreorderKids(t, j)[k + 1]) else Climb(fs, t.id)
    decreases t, |t.kids| - j
  {
    var c := t.kids[j];
    var pc := Preorder(c);
    var rest := PreorderKids(t, j + 1);
    assert PreorderKids(t, j) == pc + rest;
    assert Encodes(fs, c, Some(t.id), NextKid(t.kids, j));
    if k < |pc| {
      PreorderSucc(fs, c, Some(t.id), NextKid(t.kids, j), k);
      if k + 1 == |pc| {
        if j + 1 < |t.kids| {
          assert rest[0] == Preorder(t.kids[j + 1])[0];
        } else {
          assert rest == [];
        }
      }
    } else {
      KidsSucc(fs, t, parent, next, j + 1, k - |pc|);
    }
  }

  /** The cursors visited by `n` units of work started at `cur`, on a fixed arena. */
  function Walk(fs: Arena, cur: Option<FiberId>, n: nat): seq<FiberId>
    requires Linked(fs) && (cur.Some? ==> cur.value in fs)
    decreases n
  {
    if n == 0 || cur.None? then [] else [cur.value] + Walk(fs, Succ(fs, cur.value), n - 1)
  }

  /**
   * Starting at a root (no parent, no sibling), the work loop's cursor visits
   * the fibers of the tree in depth-first preorder, and after the last one the
   * cursor is null.
   */
  lemma WalkIsPreorder(fs: Arena, t: Tree)
    requires Linked(fs) && Encodes(fs, t, None, None)
    ensures Walk(fs, Some(t.id), |Preorder(t)|) == Preorder(t)
    ensures var last := Preorder(t)[|Preorder(t)| - 1]; last in fs && Succ(fs, last) == None
  {
    var p := Preorder(t);
    var i := |p|;
    while i > 0
      invariant 0 <= i <= |p|
      invariant i < |p| ==> p[i] in fs && Walk(fs, Some(p[i]), |p| - i) == p[i..]
      decreases i
    {
      i := i - 1;
      PreorderSucc(fs, t, None, None, i);
      if i + 1 < |p| {
        assert p[i..] == [p[i]] + p[i + 1..];
      } else {
        assert Walk(fs, Succ(fs, p[i]), 0) == [];
      }
    }
    PreorderSucc(fs, t, None, None, |p| - 1);
  }

  // ---------------------------------------------------------------------
  // The nearest ancestor with a DOM node (commitWork, first lines)
  // ---------------------------------------------------------------------

  /** The fibers from `p` up to the root, following `parent`. */
  function ParentPath(fs: Arena, p: Option<FiberId>): (r: seq<FiberId>)
    requires Linked(fs) && (p.Some? ==> p.value in fs)
    ensures forall i :: 0 <= i < |r| ==> r[i] in fs
    decreases if p.Some? then p.value + 1 else 0
  {
    if p.None? then [] else [p.value] + ParentPath(fs, fs[p.value].parent)
  }

  /** The first fiber from `p` upwards that has a DOM node. */
  function NearestDomFiber(fs: Arena, p: Option<FiberId>): (r: Option<FiberId>)
    requires Linked(fs) && (p.Some? ==> p.value in fs)
    ensures r.Some? ==> r.value in fs
    decreases if p.Some? then p.value + 1 else 0
  {
    if p.None? then None
    else if fs[p.value].dom.Some? then p
    else NearestDomFiber(fs, fs[p.value].parent)
  }

  /** The DOM node of `NearestDomFiber`: the `domParent` of `commitWork`. */
  function NearestDom(fs: Arena, p: Option<FiberId>): Option<NodeId>
    requires Linked(fs) && (p.Some? ==> p.value in fs)
  {
    var d := NearestDomFiber(fs, p);
    if d.Some? then fs[d.value].dom else None
  }

  predicate NoDomBefore(fs: Arena, path: seq<FiberId>, i: nat)
    requires i <= |path| && forall j :: 0 <= j < |path| ==> path[j] in fs
  {
    forall j :: 0 <= j < i ==> fs[path[j]].dom.None?
  }

  /**
   * `NearestDomFiber` is the first fiber on the parent path that has a DOM node,
   * and it is null exactly when no fiber on that path has one.
   */
  lemma {:induction false} NearestDomIsFirstOnPath(fs: Arena, p: Option<FiberId>)
    requires Linked(fs) && (p.Some? ==> p.value in fs)
    ensures var path, r := ParentPath(fs, p), NearestDomFiber(fs, p);
      && (r.None? <==> NoDomBefore(fs, path, |path|))
      && (r.Some? ==> exists i :: 0 <= i < |path| && path[i] == r.value && fs[path[i]].dom.Some? && NoDomBefore(fs, path, i))
    decreases if p.Some? then p.value + 1 else 0
  {
    if p.Some? && fs[p.value].dom.None? {
      var up := fs[p.value].parent;
      NearestDomIsFirstOnPath(fs, up);
      var path, rest := ParentPath(fs, p), ParentPath(fs, up);
      assert path == [p.value] + rest;
      var r := NearestDomFiber(fs, p);
      if r.Some? {
        var i :| 0 <= i < |rest| && rest[i] == r.value && fs[rest[i]].dom.Some? && NoDomBefore(fs, rest, i);
        assert path[i + 1] == r.value && NoDomBefore(fs, path, i + 1);
      } else {
        assert NoDomBefore(fs, path, |path|);
      }
    } else if p.Some? {
      var path := ParentPath(fs, p);
      assert path[0] == p.value && NoDomBefore(fs, path, 0);
      assert !NoDomBefore(fs, path, |path|);
    }
  }

  /** The climbing loop of `commitWork`: the nearest strict ancestor's DOM node. */
  method FindDomParent(fs: Arena, fiber: FiberId) returns (domParent: Option<NodeId>)
    requires Linked(fs) && fiber in fs
    ensures domParent == NearestDom(fs, fs[fiber].parent)
  {
    var domParentFiber := fs[fiber].parent;
    while domParentFiber.Some? && fs[domParentFiber.value].dom.None?
      invariant domParentFiber.Some? ==> domParentFiber.value in fs
      invariant NearestDomFiber(fs, domParentFiber) == NearestDomFiber(fs, fs[fiber].parent)
      decreases if domParentFiber.Some? then domParentFiber.value + 1 else 0
    {
      domParentFiber := fs[domParentFiber.value].parent;
    }
    domParent := if domParentFiber.Some? then fs[domParentFiber.value].dom else None;
  }

  // ---------------------------------------------------------------------
  // Sibling chains
  // ---------------------------------------------------------------------

  /** The fibers reached from `start` by following `sibling`. */
  function Chain(fs: Arena, bound: nat, start: Option<FiberId>): (r: seq<FiberId>)
    requires Linked(fs) && Below(fs, bound) && (start.Some? ==> start.value in fs)
    ensures forall i :: 0 <= i < |r| ==> r[i] in fs
    ensures start.None? <==> r == []
    ensures r != [] ==> r[0] == start.value
    decreases if start.Some? then bound - start.value else 0
  {
    if start.None? then [] else [start.value] + Chain(fs, bound, fs[start.value].sibling)
  }

  /** Consecutive fibers of a chain are linked by `sibling`, and the last has none. */
  lemma {:induction false} ChainLinks(fs: Arena, bound: nat, start: Option<FiberId>, k: nat)
    requires Linked(fs) && Below(fs, bound) && (start.Some? ==> start.value in fs)
    requires k < |Chain(fs, bound, start)|
    ensures var c := Chain(fs, bound, start);
      fs[c[k]].sibling == if k + 1 < |c| then Some(c[k + 1]) else None
    decreases if start.Some? then bound - start.value else 0
  {
    if k > 0 {
      ChainLinks(fs, bound, fs[start.value].sibling, k - 1);
    }
  }

  /** The handle after position `x` of `ids`, or none after the last. */
  function NextIn(ids: seq<FiberId>, x: nat): Option<FiberId>
  {
    if x + 1 < |ids| then Some(ids[x + 1]) else None
  }

  /** Conversely, fibers linked one to the next by `sibling`, the last with none, are the chain from the first. */
  lemma {:induction false} ChainFollows(fs: Arena, bound: nat, ids: seq<FiberId>)
    requires Linked(fs) && Below(fs, bound) && |ids| > 0
    requires forall x :: 0 <= x < |ids| ==> ids[x] in fs && fs[ids[x]].sibling == NextIn(ids, x)
    ensures Chain(fs, bound, Some(ids[0])) == ids
    decreases |ids|
  {
    var rest := ids[1..];
    if |ids| > 1 {
      forall x | 0 <= x < |rest|
        ensures rest[x] in fs && fs[rest[x]].sibling == NextIn(rest, x)
      {
        assert rest[x] == ids[x + 1];
      }
      ChainFollows(fs, bound, rest);
    }
    assert fs[ids[0]].sibling == NextIn(ids, 0);
    assert ids == [ids[0]] + rest;
  }

  /** The chain does not depend on the allocator bound used to prove it finite. */
  lemma {:induction false} ChainBound(fs: Arena, b1: nat, b2: nat, start: Option<FiberId>)
    requires Linked(fs) && Below(fs, b1) && Below(fs, b2) && (start.Some? ==> start.value in fs)
    ensures Chain(fs, b1, start) == Chain(fs, b2, start)
    decreases if start.Some? then b1 - start.value else 0
  {
    if start.Some? {
      ChainBound(fs, b1, b2, fs[start.value].sibling);
    }
  }
}
