/**
 * `reconcileChildren`: the diff of the old fiber chain of an alternate against
 * the new element list, and the arena it leaves behind. The loop itself is a
 * method of `Scheduler.Didact`; this module gives the functions it is proved
 * against and what they guarantee.
 */
module Reconcile {
  import opened Wrappers
  import opened Elements
  import opened HostDom
  import opened Fibers

  /**
   * What the loop decides at one index: the effect tag of the fiber it makes
   * (none when it makes none) and whether it tags the old fiber for deletion.
   */
  datatype Slot = Slot(made: Option<EffectTag>, deleteOld: bool)

  /** `oldFiber && element && oldFiber.type == element.type`. */
  predicate SameType(oldFiber: Option<Fiber>, element: Option<Element>)
  {
    oldFiber.Some? && element.Some? && oldFiber.value.ftype == Some(element.value.etype)
  }

  /**
   * The three independent `if`s of the loop body: an UPDATE fiber exactly when
   * the types match, a PLACEMENT fiber exactly for an element with no old fiber
   * of its type, no fiber exactly when the element is missing, and the old fiber
   * deleted exactly when it exists and is not matched. No index both updates
   * and deletes.
   */
  function Classify(oldFiber: Option<Fiber>, element: Option<Element>): (r: Slot)
    ensures r.made == Some(Update) <==> SameType(oldFiber, element)
    ensures r.made == Some(Placement) <==> element.Some? && !SameType(oldFiber, element)
    ensures r.made.None? <==> element.None?
    ensures r.deleteOld <==> oldFiber.Some? && !SameType(oldFiber, element)
    ensures !(r.made == Some(Update) && r.deleteOld)
  {
    var same := SameType(oldFiber, element);
    Slot(if oldFiber.Some? && same then Some(Update)
         else if element.Some? && !same then Some(Placement)
         else None,
         oldFiber.Some? && !same)
  }

  function Max(a: nat, b: nat): nat
  {
    if a < b then b else a
  }

  /** `elements[index]`: `undefined`, that is none, past the end. */
  function ElemAt(elems: seq<Option<Element>>, i: nat): Option<Element>
  {
    if i < |elems| then elems[i] else None
  }

  /** The old fiber at index `i` of the old chain, if the chain is that long. */
  function OldAt(fs: Arena, olds: seq<FiberId>, i: nat): Option<Fiber>
    requires forall x :: 0 <= x < |olds| ==> olds[x] in fs
  {
    if i < |olds| then Some(fs[olds[i]]) else None
  }

  /**
   * The decision taken at every index. The loop runs while
   * `index < elements.length || oldFiber`, that is over the longer of the two lists.
   */
  function Diff(fs: Arena, olds: seq<FiberId>, elems: seq<Option<Element>>): (r: seq<Slot>)
    requires forall x :: 0 <= x < |olds| ==> olds[x] in fs
    ensures |r| == Max(|olds|, |elems|)
  {
    seq(Max(|olds|, |elems|), i requires 0 <= i => Classify(OldAt(fs, olds, i), ElemAt(elems, i)))
  }

  /**
   * One call of `reconcileChildren`: the arena when it starts, the fiber being
   * reconciled, the first free handle, the old chain (the alternate's child and
   * its siblings, in order), the flattened element list, and the decision taken
   * at each index.
   */
  datatype Job = Job(fs: Arena, wip: FiberId, base: nat, olds: seq<FiberId>, elems: seq<Option<Element>>,
                     slots: seq<Slot>)

  /**
   * What the arena updates need of a job: fresh handles from `base` on, the
   * fibers it names exist, and a decision only makes a fiber for an element
   * and only updates or deletes an old fiber that exists.
   */
  ghost predicate JobOk(j: Job)
  {
    && Below(j.fs, j.base) && j.wip in j.fs
    && (forall x :: 0 <= x < |j.olds| ==> j.olds[x] in j.fs)
    && forall i :: 0 <= i < |j.slots| ==>
         && (j.slots[i].made.Some? ==> i < |j.elems| && j.elems[i].Some?)
         && ((j.slots[i].made == Some(Update) || j.slots[i].deleteOld) ==> i < |j.olds|)
  }

  /** The decisions are the ones `reconcileChildren` takes for the old chain and the elements. */
  ghost predicate Diffed(j: Job)
  {
    && (forall x :: 0 <= x < |j.olds| ==> j.olds[x] in j.fs)
    && j.slots == Diff(j.fs, j.olds, j.elems)
  }

  /** The job the source runs: the decisions of `Diff` satisfy what the arena updates need. */
  lemma DiffJobOk(j: Job)
    requires Below(j.fs, j.base) && j.wip in j.fs && Diffed(j)
    ensures JobOk(j)
  {
  }

  /** Number of iterations. */
  function N(j: Job): nat
  {
    |j.slots|
  }

  /**
   * The handle of the fiber made at index `i`, if one is made there. Index `i`
   * is given handle `base + i`; an index that makes no fiber leaves its handle unused.
   */
  function Link(j: Job, i: nat): Option<FiberId>
  {
    if i < |j.slots| && j.slots[i].made.Some? then Some(j.base + i) else None
  }

  /** Handle `id` is one the loop gives to a fiber it makes. */
  predicate MadeId(j: Job, id: FiberId)
  {
    j.base <= id && Link(j, id - j.base).Some?
  }

  /**
   * The fiber made at index `i`: an UPDATE fiber reuses the old fiber's type and
   * DOM node and links to it as its alternate; a PLACEMENT fiber takes the
   * element's type and has neither. Both take the element's props and have the
   * reconciled fiber as parent.
   */
  function NewFiber(j: Job, i: nat): Fiber
    requires JobOk(j) && i < N(j) && j.slots[i].made.Some?
  {
    var e, upd := j.elems[i].value, j.slots[i].made == Some(Update);
    Fiber(
      ftype := if upd then j.fs[j.olds[i]].ftype else Some(e.etype),
      props := e.props,
      parent := Some(j.wip),
      child := None,
      sibling := None,
      dom := if upd then j.fs[j.olds[i]].dom else None,
      alternate := if upd then Some(j.olds[i]) else None,
      effectTag := j.slots[i].made,
      hooks := [])
  }

  /** The `sibling` the fiber made at index `i` has after `k` iterations: set by iteration `i + 1`. */
  function SiblingAfter(j: Job, k: nat, i: nat): Option<FiberId>
  {
    if i + 1 < k then Link(j, i + 1) else None
  }

  /** The old fibers pushed onto `deletions` by the first `k` iterations, in order. */
  function DeletedUpTo(j: Job, k: nat): (r: seq<FiberId>)
    requires JobOk(j) && k <= N(j)
    ensures forall x :: 0 <= x < |r| ==> r[x] in j.fs
  {
    if k == 0 then []
    else DeletedUpTo(j, k - 1) + (if j.slots[k - 1].deleteOld then [j.olds[k - 1]] else [])
  }

  /** An existing fiber after `k` iterations: the reconciled fiber's `child` set, deleted fibers tagged. */
  function Marked(j: Job, k: nat, id: FiberId): Fiber
    requires JobOk(j) && k <= N(j) && id in j.fs
  {
    var f := j.fs[id];
    f.(child := if id == j.wip && k > 0 then Link(j, 0) else f.child,
       effectTag := if id in DeletedUpTo(j, k) then Some(Delete) else f.effectTag)
  }

  /**
   * One iteration of the loop on arena `a`: make the new fiber (if any), tag
   * the old one (if it is replaced or dropped), then link the new fiber from the
   * reconciled fiber (index 0) or from the previous new fiber (if there was one).
   */
  function Step(j: Job, k: nat, a: Arena): Arena
    requires JobOk(j) && k < N(j) && j.fs.Keys <= a.Keys
    requires k > 0 && Link(j, k - 1).Some? ==> j.base + k - 1 in a
  {
    var s := j.slots[k];
    var a1 := if s.made.Some? then a[j.base + k := NewFiber(j, k)] else a;
    var a2 := if s.deleteOld then a1[j.olds[k] := a1[j.olds[k]].(effectTag := Some(Delete))] else a1;
    if k == 0 then a2[j.wip := a2[j.wip].(child := Link(j, k))]
    else if Link(j, k - 1).Some? then a2[j.base + k - 1 := a2[j.base + k - 1].(sibling := Link(j, k))]
    else a2
  }

  /** The fiber an iteration makes is stored as `NewFiber` made it. */
  lemma StepMade(j: Job, k: nat, a: Arena)
    requires JobOk(j) && k < N(j) && j.fs.Keys <= a.Keys
    requires k > 0 && Link(j, k - 1).Some? ==> j.base + k - 1 in a
    requires j.slots[k].made.Some?
    ensures j.base + k in Step(j, k, a) && Step(j, k, a)[j.base + k] == NewFiber(j, k)
  {
    assert j.base + k !in j.fs;
  }

  /**
   * A fiber made by an earlier iteration is left alone, except that the one
   * made just before gets the new fiber as its `sibling`.
   */
  lemma StepKeepsMade(j: Job, k: nat, a: Arena, id: FiberId)
    requires JobOk(j) && k < N(j) && j.fs.Keys <= a.Keys
    requires k > 0 && Link(j, k - 1).Some? ==> j.base + k - 1 in a
    requires id in a && id !in j.fs && id != j.base + k
    ensures id in Step(j, k, a)
    ensures Step(j, k, a)[id] ==
              if k > 0 && id == j.base + k - 1 && Link(j, k - 1).Some? then a[id].(sibling := Link(j, k)) else a[id]
  {
    assert j.wip in j.fs;
    assert j.slots[k].deleteOld ==> j.olds[k] in j.fs;
  }

  /** The arena after the first `k` iterations of the loop. */
  function Staged(j: Job, k: nat): (a: Arena)
    requires JobOk(j) && k <= N(j)
    ensures j.fs.Keys <= a.Keys
    ensures forall i :: 0 <= i < k && Link(j, i).Some? ==> j.base + i in a
    decreases k
  {
    if k == 0 then j.fs else Step(j, k - 1, Staged(j, k - 1))
  }

  /** The handles in the arena after `k` iterations: the old ones and those of the fibers made. */
  lemma {:induction false} StagedKeys(j: Job, k: nat, id: FiberId)
    requires JobOk(j) && k <= N(j)
    ensures id in Staged(j, k) <==> id in j.fs || (id < j.base + k && MadeId(j, id))
    decreases k
  {
    if k > 0 {
      StagedKeys(j, k - 1, id);
    }
  }

  /**
   * An existing fiber after `k` iterations is unchanged except that the
   * reconciled fiber's `child` is the first new fiber and the old fibers pushed
   * onto `deletions` are tagged DELETE; in particular the old chain's `sibling`
   * links are untouched, so walking it lazily visits the same fibers.
   */
  lemma {:induction false} StagedOld(j: Job, k: nat, id: FiberId)
    requires JobOk(j) && k <= N(j) && id in j.fs
    ensures Staged(j, k)[id] == Marked(j, k, id)
    decreases k
  {
    if k > 0 {
      StagedOld(j, k - 1, id);
      assert id in DeletedUpTo(j, k) <==>
               id in DeletedUpTo(j, k - 1) || (j.slots[k - 1].deleteOld && id == j.olds[k - 1]);
    }
  }

  /**
   * The fiber made at index `i`, after `k` iterations: as `NewFiber` made it,
   * with the `sibling` the next iteration set (the next new fiber or none).
   */
  lemma {:induction false} StagedNew(j: Job, k: nat, i: nat)
    requires JobOk(j) && i < k <= N(j) && j.slots[i].made.Some?
    ensures j.base + i in Staged(j, k)
    ensures Staged(j, k)[j.base + i] == NewFiber(j, i).(sibling := SiblingAfter(j, k, i))
    decreases k
  {
    var prev := Staged(j, k - 1);
    assert Staged(j, k) == Step(j, k - 1, prev);
    if i + 1 < k {
      StagedNew(j, k - 1, i);
      StepKeepsMade(j, k - 1, prev, j.base + i);
      var f := NewFiber(j, i);
      if i + 2 == k {
        assert SiblingAfter(j, k, i) == Link(j, k - 1) && SiblingAfter(j, k - 1, i) == None;
        assert prev[j.base + i].(sibling := Link(j, k - 1)) == f.(sibling := Link(j, k - 1));
      } else {
        assert SiblingAfter(j, k, i) == SiblingAfter(j, k - 1, i);
      }
    } else {
      StepMade(j, k - 1, prev);
    }
  }

  /** What `StagedOk` needs at one handle. */
  ghost predicate FiberOk(j: Job, k: nat, a: Arena, id: FiberId, nodes: set<NodeId>, hks: set<HookId>)
    requires id in a
  {
    && LinksOk(a, id, a[id]) && id < j.base + k
    && (DomRefs(j.fs, nodes) && a[id].dom.Some? ==> a[id].dom.value in nodes)
    && (HookRefs(j.fs, hks) ==> forall x :: 0 <= x < |a[id].hooks| ==> a[id].hooks[x] in hks)
  }

  lemma StagedOldOk(j: Job, k: nat, id: FiberId, nodes: set<NodeId>, hks: set<HookId>)
    requires JobOk(j) && Linked(j.fs) && k <= N(j) && id in j.fs
    ensures id in Staged(j, k) && FiberOk(j, k, Staged(j, k), id, nodes, hks)
  {
    var a := Staged(j, k);
    assert LinksOk(j.fs, id, j.fs[id]);
    StagedOld(j, k, id);
    if k > 0 && Link(j, 0).Some? {
      StagedNew(j, k, 0);
    }
    forall x | x in j.fs ensures x in a {
      StagedKeys(j, k, x);
    }
  }

  /** The links and references of a fiber `NewFiber` makes. */
  lemma NewFiberFields(j: Job, i: nat)
    requires JobOk(j) && i < N(j) && j.slots[i].made.Some?
    ensures var f := NewFiber(j, i);
      && f.parent == Some(j.wip) && f.child == None && f.hooks == []
      && (f.alternate.Some? ==> i < |j.olds| && f.alternate == Some(j.olds[i]))
      && (f.dom.Some? ==> i < |j.olds| && f.dom == j.fs[j.olds[i]].dom)
  {
  }

  lemma StagedNewOk(j: Job, k: nat, id: FiberId, nodes: set<NodeId>, hks: set<HookId>)
    requires JobOk(j) && k <= N(j) && id in Staged(j, k) && id !in j.fs
    ensures FiberOk(j, k, Staged(j, k), id, nodes, hks)
  {
    var a := Staged(j, k);
    StagedKeys(j, k, id);
    var i: nat := id - j.base;
    StagedNew(j, k, i);
    NewFiberFields(j, i);
    var f := NewFiber(j, i).(sibling := SiblingAfter(j, k, i));
    assert a[id] == f;
    if i + 1 < k && Link(j, i + 1).Some? {
      StagedNew(j, k, i + 1);
      assert f.sibling == Some(id + 1) && id + 1 in a;
    }
    StagedKeys(j, k, j.wip);
    if j.slots[i].made == Some(Update) {
      StagedKeys(j, k, j.olds[i]);
    }
  }

  /**
   * After any number of iterations the arena is linked (every link in handle
   * order), every handle is below the allocator, and no fiber refers to a DOM
   * node or hook that did not exist before.
   */
  lemma StagedOk(j: Job, k: nat, nodes: set<NodeId>, hks: set<HookId>)
    requires JobOk(j) && Linked(j.fs) && k <= N(j)
    ensures Linked(Staged(j, k)) && Below(Staged(j, k), j.base + k)
    ensures DomRefs(j.fs, nodes) ==> DomRefs(Staged(j, k), nodes)
    ensures HookRefs(j.fs, hks) ==> HookRefs(Staged(j, k), hks)
  {
    var a := Staged(j, k);
    forall id | id in a
      ensures FiberOk(j, k, a, id, nodes, hks)
    {
      if id in j.fs {
        StagedOldOk(j, k, id, nodes, hks);
      } else {
        StagedNewOk(j, k, id, nodes, hks);
      }
    }
  }

  // ---------------------------------------------------------------------
  // The new child chain
  // ---------------------------------------------------------------------

  /** The handles `lo`, `lo + 1`, ..., `n` of them. */
  function Range(lo: nat, n: nat): (r: seq<nat>)
    ensures |r| == n && forall x :: 0 <= x < n ==> r[x] == lo + x
    decreases n
  {
    if n == 0 then [] else [lo] + Range(lo + 1, n - 1)
  }

  /** The number of consecutive indices from `i` on that make a fiber. */
  function Run(j: Job, i: nat): nat
    decreases N(j) - i
  {
    if Link(j, i).Some? then 1 + Run(j, i + 1) else 0
  }

  /** The indices of a run all make a fiber, and the one after it does not. */
  lemma {:induction false} RunLinks(j: Job, i: nat, x: nat)
    requires x <= Run(j, i)
    ensures Link(j, i + x).Some? <==> x < Run(j, i)
    decreases x
  {
    if x > 0 {
      RunLinks(j, i + 1, x - 1);
    }
  }

  /** The final arena of a job. */
  function Final(j: Job): Arena
    requires JobOk(j)
  {
    Staged(j, N(j))
  }

  /**
   * After the loop, the sibling chain that starts at the fiber made at `i`
   * holds exactly the fibers made at `i`, `i + 1`, ... up to the first index
   * that made none.
   */
  lemma ChainIsRun(j: Job, i: nat)
    requires JobOk(j) && Linked(j.fs)
    ensures Linked(Final(j)) && Below(Final(j), j.base + N(j))
    ensures Link(j, i).Some? ==> Link(j, i).value in Final(j)
    ensures Chain(Final(j), j.base + N(j), Link(j, i)) == Range(j.base + i, Run(j, i))
  {
    StagedOk(j, N(j), {}, {});
    var ids := Range(j.base + i, Run(j, i));
    if Run(j, i) > 0 {
      forall x | 0 <= x < |ids|
        ensures ids[x] in Final(j) && Final(j)[ids[x]].sibling == NextIn(ids, x)
      {
        RunSibling(j, i, x);
      }
      ChainFollows(Final(j), j.base + N(j), ids);
    }
  }

  /** Inside a run, each new fiber's `sibling` is the next one of the run, and the last has none. */
  lemma RunSibling(j: Job, i: nat, x: nat)
    requires JobOk(j) && x < Run(j, i)
    ensures var ids := Range(j.base + i, Run(j, i));
      ids[x] in Final(j) && Final(j)[ids[x]].sibling == NextIn(ids, x)
  {
    RunLinks(j, i, x);
    RunLinks(j, i, x + 1);
    StagedNew(j, N(j), i + x);
  }

  /**
   * With no null element, the reconciled fiber's new children are one fiber per
   * element, in order: the chain from its `child` has exactly `|elems|` fibers,
   * and the `i`-th has the `i`-th element's type and props and the reconciled
   * fiber as parent.
   */
  lemma ChildrenMirrorElements(j: Job)
    requires JobOk(j) && Diffed(j) && Linked(j.fs) && |j.elems| > 0
    requires forall i :: 0 <= i < |j.elems| ==> j.elems[i].Some?
    ensures Linked(Final(j)) && Below(Final(j), j.base + N(j))
    ensures Final(j)[j.wip].child.Some? && Final(j)[j.wip].child.value in Final(j)
    ensures var a := Final(j); var c := Chain(a, j.base + N(j), a[j.wip].child);
      && |c| == |j.elems|
      && forall i :: 0 <= i < |c| ==> Mirrors(j, a, c[i], j.elems[i].value)
  {
    ChildChainIsElements(j);
    ElementsMade(j);
  }

  /** With no null element, the new child chain is the handles made at indices `0 .. |elems| - 1`. */
  lemma ChildChainIsElements(j: Job)
    requires JobOk(j) && Diffed(j) && Linked(j.fs) && |j.elems| > 0
    requires forall i :: 0 <= i < |j.elems| ==> j.elems[i].Some?
    ensures Linked(Final(j)) && Below(Final(j), j.base + N(j))
    ensures Final(j)[j.wip].child == Link(j, 0) && Link(j, 0) == Some(j.base) && j.base in Final(j)
    ensures Chain(Final(j), j.base + N(j), Link(j, 0)) == Range(j.base, |j.elems|)
  {
    FirstChild(j);
    ChainIsRun(j, 0);
    RunAllElements(j, 0);
    RunLinks(j, 0, 0);
  }

  /** With no null element, the fiber at each handle of that range mirrors its element. */
  lemma ElementsMade(j: Job)
    requires JobOk(j) && Diffed(j)
    requires forall i :: 0 <= i < |j.elems| ==> j.elems[i].Some?
    ensures forall i :: 0 <= i < |j.elems| ==> Mirrors(j, Final(j), Range(j.base, |j.elems|)[i], j.elems[i].value)
  {
    forall i | 0 <= i < |j.elems|
      ensures Mirrors(j, Final(j), Range(j.base, |j.elems|)[i], j.elems[i].value)
    {
      ElementMade(j, i);
    }
  }

  /** The fiber `id` of arena `a` has the element's type and props and the reconciled fiber as parent. */
  ghost predicate Mirrors(j: Job, a: Arena, id: FiberId, e: Element)
  {
    id in a && a[id].ftype == Some(e.etype) && a[id].props == e.props && a[id].parent == Some(j.wip)
  }

  /** After a non-empty pass, the reconciled fiber's `child` is the fiber made at index 0, if any. */
  lemma FirstChild(j: Job)
    requires JobOk(j) && N(j) > 0
    ensures j.wip in Final(j) && Final(j)[j.wip].child == Link(j, 0)
  {
    StagedOld(j, N(j), j.wip);
  }

  /** The fiber made for a non-null element has its type and props and the reconciled fiber as parent. */
  lemma ElementMade(j: Job, i: nat)
    requires JobOk(j) && Diffed(j) && i < |j.elems| && j.elems[i].Some?
    ensures Mirrors(j, Final(j), j.base + i, j.elems[i].value)
  {
    StagedNew(j, N(j), i);
  }

  /** Every index below `|elems|` makes a fiber when no element is null, and the next one does not. */
  lemma {:induction false} RunAllElements(j: Job, i: nat)
    requires JobOk(j) && Diffed(j) && i <= |j.elems|
    requires forall x :: 0 <= x < |j.elems| ==> j.elems[x].Some?
    ensures Run(j, i) == |j.elems| - i
    decreases |j.elems| - i
  {
    if i < |j.elems| {
      RunAllElements(j, i + 1);
    }
  }

  /**
   * Null-element quirk: a null element makes no fiber, and the next iteration
   * then has no previous fiber to link from, so every fiber made after a null
   * element exists in the arena but is unreachable from the reconciled fiber's
   * `child` chain.
   */
  lemma NullUnlinksLater(j: Job, n: nat, m: nat)
    requires JobOk(j) && Diffed(j) && Linked(j.fs)
    requires n < m < |j.elems| && j.elems[n].None? && j.elems[m].Some?
    ensures Linked(Final(j)) && Below(Final(j), j.base + N(j)) && Final(j)[j.wip].child == Link(j, 0)
    ensures j.base + m in Final(j) && j.base + m !in Chain(Final(j), j.base + N(j), Final(j)[j.wip].child)
  {
    FirstChild(j);
    ChainIsRun(j, 0);
    RunStopsAtNull(j, 0, n);
    StagedNew(j, N(j), m);
  }

  /** A run starting at or before a null element ends at it. */
  lemma {:induction false} RunStopsAtNull(j: Job, i: nat, n: nat)
    requires JobOk(j) && Diffed(j) && i <= n < |j.elems| && j.elems[n].None?
    ensures i + Run(j, i) <= n
    decreases n - i
  {
    if i < n {
      RunStopsAtNull(j, i + 1, n);
    }
  }

  // ---------------------------------------------------------------------
  // Deletions and counts
  // ---------------------------------------------------------------------

  /** Every old fiber pushed onto `deletions` carries the DELETE tag afterwards. */
  lemma DeletedAreTagged(j: Job, k: nat)
    requires JobOk(j) && k <= N(j)
    ensures forall x :: 0 <= x < |DeletedUpTo(j, k)| ==>
              DeletedUpTo(j, k)[x] in Staged(j, k) && Staged(j, k)[DeletedUpTo(j, k)[x]].effectTag == Some(Delete)
  {
    forall x | 0 <= x < |DeletedUpTo(j, k)|
      ensures DeletedUpTo(j, k)[x] in Staged(j, k) && Staged(j, k)[DeletedUpTo(j, k)[x]].effectTag == Some(Delete)
    {
      StagedOld(j, k, DeletedUpTo(j, k)[x]);
    }
  }

  /** An old fiber is pushed onto `deletions` exactly when its index replaced or dropped it. */
  lemma {:induction false} DeletedExactly(j: Job, k: nat)
    requires JobOk(j) && Diffed(j) && k <= N(j)
    ensures forall i :: 0 <= i < k && i < |j.olds| && !SameType(OldAt(j.fs, j.olds, i), ElemAt(j.elems, i)) ==>
              j.olds[i] in DeletedUpTo(j, k)
    ensures forall x :: x in DeletedUpTo(j, k) ==>
              exists i :: 0 <= i < k && i < |j.olds| && x == j.olds[i] && !SameType(OldAt(j.fs, j.olds, i), ElemAt(j.elems, i))
  {
    if k > 0 {
      DeletedExactly(j, k - 1);
    }
  }

  datatype Tally = Updated | Placed | Removed

  predicate Counts(t: Tally, s: Slot)
  {
    match t
    case Updated => s.made == Some(Update)
    case Placed => s.made == Some(Placement)
    case Removed => s.deleteOld
  }

  /** How many of the first `k` indices count for `t`. */
  function CountUpTo(j: Job, k: nat, t: Tally): nat
    requires k <= N(j)
  {
    if k == 0 then 0 else CountUpTo(j, k - 1, t) + (if Counts(t, j.slots[k - 1]) then 1 else 0)
  }

  function Min(a: nat, b: nat): nat
  {
    if a < b then a else b
  }

  /**
   * With no null element, every element becomes exactly one new fiber (UPDATE
   * or PLACEMENT) and every old fiber is either reused by one UPDATE or deleted;
   * `deletions` gets exactly the deleted ones.
   */
  lemma {:induction false} EveryElementAndOldAccounted(j: Job)
    requires JobOk(j) && Diffed(j)
    requires forall i :: 0 <= i < |j.elems| ==> j.elems[i].Some?
    ensures CountUpTo(j, N(j), Updated) + CountUpTo(j, N(j), Placed) == |j.elems|
    ensures CountUpTo(j, N(j), Updated) + CountUpTo(j, N(j), Removed) == |j.olds|
    ensures |DeletedUpTo(j, N(j))| == CountUpTo(j, N(j), Removed)
  {
    var k := 0;
    while k < N(j)
      invariant k <= N(j)
      invariant CountUpTo(j, k, Updated) + CountUpTo(j, k, Placed) == Min(k, |j.elems|)
      invariant CountUpTo(j, k, Updated) + CountUpTo(j, k, Removed) == Min(k, |j.olds|)
      invariant |DeletedUpTo(j, k)| == CountUpTo(j, k, Removed)
      decreases N(j) - k
    {
      k := k + 1;
    }
  }

  /**
   * When every old fiber has the same type as the element at its index and the
   * lengths agree, the pass only updates: every index makes an UPDATE fiber
   * (which, by `UpdateKeepsDom`, reuses its old fiber's DOM node), none
   * places, and nothing is deleted.
   */
  lemma SameShapeOnlyUpdates(j: Job)
    requires JobOk(j) && Diffed(j) && |j.olds| == |j.elems|
    requires forall i :: 0 <= i < |j.olds| ==> SameType(OldAt(j.fs, j.olds, i), ElemAt(j.elems, i))
    ensures N(j) == |j.olds|
    ensures forall i :: 0 <= i < N(j) ==> j.slots[i] == Slot(Some(Update), false)
    ensures DeletedUpTo(j, N(j)) == []
  {
    DeletedExactly(j, N(j));
    if DeletedUpTo(j, N(j)) != [] {
      assert DeletedUpTo(j, N(j))[0] in DeletedUpTo(j, N(j));
    }
  }

  /** An UPDATE fiber takes over the DOM node of the old fiber it replaces. */
  lemma UpdateKeepsDom(j: Job, i: nat)
    requires JobOk(j) && i < N(j) && j.slots[i].made == Some(Update)
    ensures j.base + i in Final(j) && Final(j)[j.base + i].dom == j.fs[j.olds[i]].dom
    ensures Final(j)[j.base + i].alternate == Some(j.olds[i])
  {
    StagedNew(j, N(j), i);
  }

  /**
   * When the element at an index has a different type from the old fiber
   * there, the old fiber is deleted and a PLACEMENT fiber without a DOM node
   * is made: a type change never reuses a node.
   */
  lemma TypeChangeReplaces(j: Job, i: nat)
    requires JobOk(j) && Diffed(j)
    requires i < |j.olds| && i < |j.elems| && j.elems[i].Some?
    requires j.fs[j.olds[i]].ftype != Some(j.elems[i].value.etype)
    ensures j.slots[i] == Slot(Some(Placement), true)
    ensures j.base + i in Final(j) && Final(j)[j.base + i].effectTag == Some(Placement) && Final(j)[j.base + i].dom.None?
    ensures Final(j)[j.olds[i]].effectTag == Some(Delete)
  {
    DeletedExactly(j, N(j));
    StagedNew(j, N(j), i);
    StagedOld(j, N(j), j.olds[i]);
    StagedKeys(j, N(j), j.olds[i]);
  }

  /**
   * An element past the end of the old chain has no old fiber to match, so it
   * gets a PLACEMENT fiber of its own type and props, with neither a DOM node
   * nor an alternate, and nothing is deleted at its index.
   */
  lemma NewElementPlaced(j: Job, i: nat)
    requires JobOk(j) && Diffed(j)
    requires |j.olds| <= i < |j.elems| && j.elems[i].Some?
    ensures j.slots[i] == Slot(Some(Placement), false)
    ensures j.base + i in Final(j)
    ensures var f := Final(j)[j.base + i];
      && f.effectTag == Some(Placement) && f.dom.None? && f.alternate.None?
      && f.ftype == Some(j.elems[i].value.etype) && f.props == j.elems[i].value.props && f.parent == Some(j.wip)
  {
    StagedNew(j, N(j), i);
  }

  /**
   * An empty element list makes no fiber: the reconciled fiber keeps its `child`
   * when there was no old chain either (the loop does not run), and otherwise
   * its `child` is cleared by the first iteration; every old fiber is deleted,
   * in chain order.
   */
  lemma NoElements(j: Job)
    requires JobOk(j) && Diffed(j) && j.elems == []
    ensures N(j) == |j.olds|
    ensures j.wip in Final(j)
    ensures Final(j)[j.wip].child == if |j.olds| == 0 then j.fs[j.wip].child else None
    ensures DeletedUpTo(j, N(j)) == j.olds
    ensures forall i :: 0 <= i < |j.olds| ==> j.olds[i] in Final(j) && Final(j)[j.olds[i]].effectTag == Some(Delete)
  {
    if N(j) > 0 {
      FirstChild(j);
    }
    AllDeleted(j, N(j));
    DeletedAreTagged(j, N(j));
    forall i | 0 <= i < |j.olds|
      ensures j.olds[i] in Final(j) && Final(j)[j.olds[i]].effectTag == Some(Delete)
    {
      assert DeletedUpTo(j, N(j))[i] == j.olds[i];
    }
  }

  /** With no elements, the first `k` iterations delete the first `k` old fibers. */
  lemma {:induction false} AllDeleted(j: Job, k: nat)
    requires JobOk(j) && Diffed(j) && j.elems == [] && k <= N(j)
    ensures DeletedUpTo(j, k) == j.olds[..k]
  {
    if k > 0 {
      AllDeleted(j, k - 1);
      assert j.olds[..k] == j.olds[..k - 1] + [j.olds[k - 1]];
    }
  }
}
