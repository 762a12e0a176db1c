/**
 * The backend document as an abstract node store, the prop-key predicates,
 * node creation (`createDom`) and the prop diff applied on UPDATE (`updateDom`).
 */
module HostDom {
  import opened Wrappers
  import opened Elements

  type NodeId = nat

  // ---------------------------------------------------------------------
  // Prop-key predicates (isEvent, isProperty, isNew, isGone)
  // ---------------------------------------------------------------------

  /** `key.startsWith("on")`. */
  predicate IsEvent(key: string)
  {
    |key| >= 2 && key[..2] == "on"
  }

  /** `key !== "children" && !isEvent(key)`. */
  predicate IsProperty(key: string)
  {
    key != "children" && !IsEvent(key)
  }

  /** Property lookup where an absent key reads as `undefined` (`None`). */
  function Lookup(m: map<string, Value>, key: string): Option<Value>
  {
    if key in m then Some(m[key]) else None
  }

  /** `isNew(prev, next)(key)`: `prev[key] !== next[key]`. */
  predicate IsNew(prev: map<string, Value>, next: map<string, Value>, key: string)
  {
    Lookup(prev, key) != Lookup(next, key)
  }

  /** `isGone(prev, next)(key)`: `!(key in next)`. */
  predicate IsGone(next: map<string, Value>, key: string)
  {
    key !in next
  }

  /**
   * The removal filter of `updateDom` writes `isNew(prevProps, nextProps)`
   * without applying it to the key; that is a function value, which is truthy.
   */
  const CurriedIsNewIsTruthy: bool := true

  function LowerChar(c: char): char
  {
    if 'A' <= c <= 'Z' then (c as int + 32) as char else c
  }

  /**
   * `toLowerCase()`, for ASCII letters: no upper-case letter is left, each
   * upper-case letter becomes its lower-case partner in place, and every other
   * character is kept.
   */
  function Lower(s: string): (r: string)
    ensures |r| == |s|
    ensures forall i :: 0 <= i < |r| ==> !('A' <= r[i] <= 'Z')
    ensures forall i :: 0 <= i < |s| && 'A' <= s[i] <= 'Z' ==> 'a' <= r[i] <= 'z' && r[i] as int == s[i] as int + 32
    ensures forall i :: 0 <= i < |s| && !('A' <= s[i] <= 'Z') ==> r[i] == s[i]
  {
    seq(|s|, i requires 0 <= i < |s| => LowerChar(s[i]))
  }

  /** `name.toLowerCase().substring(2)`: "onClick" names the event "click". */
  function EventName(key: string): (r: string)
    ensures IsEvent(key) ==> r == Lower(key[2..])
  {
    var l := Lower(key);
    if |l| >= 2 then
      assert l[2..] == Lower(key[2..]);
      l[2..]
    else ""
  }

  // ---------------------------------------------------------------------
  // The node store
  // ---------------------------------------------------------------------

  /**
   * How the four key predicates relate: an `on*` key is never a plain
   * property, nor is "children"; `isNew` reads a missing key as `undefined`, so
   * a key counts as changed exactly when it is in one props object and not the
   * other, or in both with different values; and a key that was present and is
   * gone counts as changed.
   */
  lemma KeyPredicates(prev: map<string, Value>, next: map<string, Value>, key: string)
    ensures IsEvent(key) ==> !IsProperty(key)
    ensures !IsProperty("children") && !IsEvent("children")
    ensures IsNew(prev, next, key) <==>
              (key in prev) != (key in next) || (key in prev && key in next && prev[key] != next[key])
    ensures IsGone(next, key) && key in prev ==> IsNew(prev, next, key)
  {
    assert "children"[..2] == "ch";
  }

  datatype Listener = Listener(event: string, handler: Value)

  datatype NodeKind = TextNode | ElementNode(tag: string)

  /** A backend node: its kind, its parent, its ordered children, its attributes and its listeners. */
  datatype DomNode = DomNode(
    kind: NodeKind,
    parent: Option<NodeId>,
    children: seq<NodeId>,
    attrs: map<string, Value>,
    listeners: set<Listener>)

  type Store = map<NodeId, DomNode>

  /** What the DOM throws. */
  datatype DomError = NotFound | HierarchyRequest

  /**
   * The result of a sequence of DOM calls. An exception keeps the mutations
   * made before it (`Threw` carries the store as it then was).
   */
  datatype Outcome = Done(store: Store) | Threw(store: Store, error: DomError)

  /** Every listed child names the listing node as its parent. */
  ghost predicate ChildLinksOk(s: Store)
  {
    forall n, i :: n in s && 0 <= i < |s[n].children| ==>
      s[n].children[i] in s && s[s[n].children[i]].parent == Some(n)
  }

  /** A node with a parent is listed exactly once by it. */
  ghost predicate ParentLinksOk(s: Store)
  {
    forall m :: m in s && s[m].parent.Some? ==>
      s[m].parent.value in s && multiset(s[s[m].parent.value].children)[m] == 1
  }

  /** Parent and child links of the store agree, and a node is listed once by its parent. */
  ghost predicate Consistent(s: Store)
  {
    ChildLinksOk(s) && ParentLinksOk(s)
  }

  /** `xs` without any occurrence of `x`, in order. */
  function Without(xs: seq<NodeId>, x: NodeId): (r: seq<NodeId>)
    ensures forall y :: y in r <==> y in xs && y != x
    ensures multiset(r) == multiset(xs)[x := 0]
    ensures x !in xs ==> r == xs
  {
    if xs == [] then []
    else
      assert xs == [xs[0]] + xs[1..];
      if xs[0] == x then Without(xs[1..], x) else [xs[0]] + Without(xs[1..], x)
  }

  /** Removing `x` from a concatenation removes it from each part, so the order of what is left is kept. */
  lemma {:induction false} WithoutAppend(a: seq<NodeId>, b: seq<NodeId>, x: NodeId)
    ensures Without(a + b, x) == Without(a, x) + Without(b, x)
  {
    if a == [] {
      assert a + b == b;
    } else {
      assert (a + b)[1..] == a[1..] + b;
      WithoutAppend(a[1..], b, x);
    }
  }

  /** Removing `x` from a one-element list drops that element exactly when it is `x`. */
  lemma WithoutSingle(y: NodeId, x: NodeId)
    ensures Without([y], x) == if y == x then [] else [y]
  {
    assert [y][1..] == [];
  }

  /**
   * Node `n` once `c` is unlinked from its parent: the parent's child list loses
   * `c`, every other node is as it was.
   */
  function Unlisted(s: Store, c: NodeId, n: NodeId): DomNode
    requires c in s && n in s
  {
    if s[c].parent == Some(n) then s[n].(children := Without(s[n].children, c)) else s[n]
  }

  /** Unlinks `c` from the node that lists it as a child, if any. */
  function Detach(s: Store, c: NodeId): (r: Store)
    requires c in s
    ensures r.Keys == s.Keys
    ensures r[c].parent == None
  {
    match s[c].parent
    case None => s
    case Some(q) =>
      var s1 := if q in s then s[q := s[q].(children := Without(s[q].children, c))] else s;
      s1[c := s1[c].(parent := None)]
  }

  /**
   * `p.appendChild(c)`: moves `c` to the end of `p`'s children, unlinking it
   * from its current parent first. A text node cannot have children, and a
   * node cannot be appended to itself.
   */
  function AppendChild(s: Store, p: NodeId, c: NodeId): (r: Outcome)
    requires p in s && c in s
    ensures r.store.Keys == s.Keys
    ensures r.Threw? <==> p == c || s[p].kind.TextNode?
    ensures r.Threw? ==> r.store == s
    ensures r.Done? ==> r.store[c].parent == Some(p)
    ensures r.Done? ==> |r.store[p].children| > 0 && r.store[p].children[|r.store[p].children| - 1] == c
    ensures r.Done? ==> r.store[p] == Unlisted(s, c, p).(children := Unlisted(s, c, p).children + [c])
    ensures r.Done? ==> r.store[c] == Unlisted(s, c, c).(parent := Some(p))
    ensures r.Done? ==> forall n :: n in s && n != p && n != c ==> r.store[n] == Unlisted(s, c, n)
  {
    if p == c || s[p].kind.TextNode? then Threw(s, HierarchyRequest)
    else
      var s1 := Detach(s, c);
      var s2 := s1[p := s1[p].(children := s1[p].children + [c])];
      Done(s2[c := s2[c].(parent := Some(p))])
  }

  /** `p.removeChild(c)`: throws NotFound unless `c` is a child of `p`. */
  function RemoveChild(s: Store, p: NodeId, c: NodeId): (r: Outcome)
    requires p in s && c in s
    ensures r.store.Keys == s.Keys
    ensures r.Done? <==> c in s[p].children
    ensures r.Threw? ==> r.store == s && r.error == NotFound
    ensures r.Done? ==> c !in r.store[p].children && r.store[c].parent == None
    ensures r.Done? ==> r.store[p].children == Without(s[p].children, c)
    ensures r.Done? && p != c ==> r.store[p] == s[p].(children := Without(s[p].children, c))
    ensures r.Done? && p != c ==> r.store[c] == s[c].(parent := None)
    ensures r.Done? ==> forall n :: n in s && n != p && n != c ==> r.store[n] == s[n]
  {
    if c in s[p].children then
      var s1 := s[p := s[p].(children := Without(s[p].children, c))];
      Done(s1[c := s1[c].(parent := None)])
    else Threw(s, NotFound)
  }

  /** In a consistent store, a node listed by `n` has `n` as its parent. */
  lemma ListedChildParent(s: Store, n: NodeId, m: NodeId)
    requires ChildLinksOk(s) && n in s && m in s[n].children
    ensures m in s && s[m].parent == Some(n)
  {
    var i :| 0 <= i < |s[n].children| && s[n].children[i] == m;
  }

  /** What `Detach` changes: the old parent's child list and the node's parent link. */
  lemma DetachShape(s: Store, c: NodeId)
    requires c in s && s[c].parent.Some? && s[c].parent.value in s
    ensures var r, q := Detach(s, c), s[c].parent.value;
      && (forall x :: x in r ==> r[x].children == (if x == q then Without(s[q].children, c) else s[x].children))
      && (forall x :: x in r ==> r[x].parent == (if x == c then None else s[x].parent))
  {
    var q := s[c].parent.value;
    var s1 := s[q := s[q].(children := Without(s[q].children, c))];
    assert Detach(s, c) == s1[c := s1[c].(parent := None)];
  }

  /** After `Detach`, no node lists the detached one. */
  lemma DetachUnlisted(s: Store, c: NodeId)
    requires Consistent(s) && c in s
    ensures forall n :: n in s ==> c !in Detach(s, c)[n].children
  {
    var r := Detach(s, c);
    if s[c].parent.Some? {
      DetachShape(s, c);
    }
    forall n | n in s ensures c !in r[n].children {
      if c in s[n].children && (s[c].parent.None? || n != s[c].parent.value) {
        ListedChildParent(s, n, c);
      }
    }
  }

  /** Detaching a node keeps the store consistent and leaves the node in no child list. */
  lemma DetachConsistent(s: Store, c: NodeId)
    requires Consistent(s) && c in s
    ensures Consistent(Detach(s, c))
    ensures forall n :: n in s ==> c !in Detach(s, c)[n].children
  {
    DetachUnlisted(s, c);
    if s[c].parent.None? {
      return;
    }
    var r := Detach(s, c);
    DetachShape(s, c);
    forall n, i | n in r && 0 <= i < |r[n].children|
      ensures r[n].children[i] in r && r[r[n].children[i]].parent == Some(n)
    {
      var m := r[n].children[i];
      assert m in r[n].children;
      assert m in s[n].children;
      assert m != c;
      ListedChildParent(s, n, m);
    }
    forall m | m in r && r[m].parent.Some?
      ensures r[m].parent.value in r && multiset(r[r[m].parent.value].children)[m] == 1
    {
      assert m != c;
    }
  }

  /**
   * `appendChild` moves a node that is already attached: afterwards it is the
   * last child of its new parent, listed there once and by no other node, and
   * the store is still consistent.
   */
  lemma AppendChildMoves(s: Store, p: NodeId, c: NodeId)
    requires Consistent(s) && p in s && c in s
    requires AppendChild(s, p, c).Done?
    ensures var r := AppendChild(s, p, c).store;
      && Consistent(r)
      && multiset(r[p].children)[c] == 1
      && (forall n :: n in r && n != p ==> c !in r[n].children)
  {
    DetachConsistent(s, c);
    AttachConsistent(Detach(s, c), p, c);
    assert AppendChild(s, p, c).store == Attached(Detach(s, c), p, c);
  }

  /** The store once the detached node `c` is linked in as the last child of `p`. */
  function Attached(s1: Store, p: NodeId, c: NodeId): Store
    requires p in s1 && c in s1
  {
    var s2 := s1[p := s1[p].(children := s1[p].children + [c])];
    s2[c := s2[c].(parent := Some(p))]
  }

  /** Appending a detached, unlisted node to another node keeps the store consistent. */
  lemma AttachConsistent(s1: Store, p: NodeId, c: NodeId)
    requires Consistent(s1) && p in s1 && c in s1 && p != c && s1[c].parent == None
    requires forall n :: n in s1 ==> c !in s1[n].children
    ensures var r := Attached(s1, p, c);
      && Consistent(r)
      && multiset(r[p].children)[c] == 1
      && (forall n :: n in r && n != p ==> c !in r[n].children)
  {
    AttachChildLinks(s1, p, c);
    AttachParentLinks(s1, p, c);
    var r := Attached(s1, p, c);
    forall n | n in r && n != p ensures c !in r[n].children {
    }
  }

  lemma AttachChildLinks(s1: Store, p: NodeId, c: NodeId)
    requires Consistent(s1) && p in s1 && c in s1 && p != c && s1[c].parent == None
    requires forall n :: n in s1 ==> c !in s1[n].children
    ensures ChildLinksOk(Attached(s1, p, c))
  {
    var r := Attached(s1, p, c);
    assert forall x :: x in r ==> r[x].children == (if x == p then s1[p].children + [c] else s1[x].children);
    assert forall x :: x in r ==> r[x].parent == (if x == c then Some(p) else s1[x].parent);
    forall n, i | n in r && 0 <= i < |r[n].children|
      ensures r[n].children[i] in r && r[r[n].children[i]].parent == Some(n)
    {
      var m := r[n].children[i];
      if n == p && i == |s1[p].children| {
        assert m == c;
      } else {
        assert m == s1[n].children[i];
        assert m != c;
      }
    }
  }

  lemma AttachParentLinks(s1: Store, p: NodeId, c: NodeId)
    requires Consistent(s1) && p in s1 && c in s1 && p != c && s1[c].parent == None
    requires forall n :: n in s1 ==> c !in s1[n].children
    ensures ParentLinksOk(Attached(s1, p, c))
    ensures multiset(Attached(s1, p, c)[p].children)[c] == 1
  {
    var r := Attached(s1, p, c);
    assert forall x :: x in r ==> r[x].parent == (if x == c then Some(p) else s1[x].parent);
    assert multiset(r[p].children) == multiset(s1[p].children) + multiset{c};
    forall m | m in r && r[m].parent.Some?
      ensures r[m].parent.value in r && multiset(r[r[m].parent.value].children)[m] == 1
    {
      if m != c {
        var q := s1[m].parent.value;
        if q == p {
          assert multiset(r[p].children)[m] == multiset(s1[p].children)[m];
        }
      }
    }
  }

  /** In a consistent store, `appendChild` leaves the new parent's other children in their order, `c` last. */
  lemma AppendChildOrder(s: Store, p: NodeId, c: NodeId)
    requires Consistent(s) && p in s && c in s
    requires AppendChild(s, p, c).Done?
    ensures AppendChild(s, p, c).store[p].children == Without(s[p].children, c) + [c]
  {
    if s[c].parent != Some(p) && c in s[p].children {
      ListedChildParent(s, p, c);
    }
  }

  /**
   * `removeChild` succeeds exactly when the node's parent is `p`; afterwards the
   * node is detached and the store is still consistent.
   */
  lemma RemoveChildDetaches(s: Store, p: NodeId, c: NodeId)
    requires Consistent(s) && p in s && c in s
    ensures RemoveChild(s, p, c).Done? <==> s[c].parent == Some(p)
    ensures Consistent(RemoveChild(s, p, c).store)
    ensures RemoveChild(s, p, c).Done? ==> forall n :: n in s ==> c !in RemoveChild(s, p, c).store[n].children
  {
    if c in s[p].children {
      var i :| 0 <= i < |s[p].children| && s[p].children[i] == c;
      assert s[c].parent == Some(p);
      assert RemoveChild(s, p, c).store == Detach(s, c);
      DetachConsistent(s, c);
    }
  }

  // ---------------------------------------------------------------------
  // createDom
  // ---------------------------------------------------------------------

  /** Whether a fiber `type` is a component function (the `instanceof Function` test). */
  predicate IsComponent(t: Option<EType>)
  {
    t.Some? && t.value.Comp?
  }

  /**
   * The node kind `createDom` makes for a fiber type: a text node for
   * "TEXT_ELEMENT", otherwise an element named by the type; a `null` type
   * (the root a setter builds) names an element "null".
   */
  function KindFor(t: Option<EType>): NodeKind
    requires !IsComponent(t)
  {
    match t
    case None => ElementNode("null")
    case Some(Tag(name)) => if name == TEXT_ELEMENT then TextNode else ElementNode(name)
  }

  /** The listeners attached for the `on*` keys of a props object. */
  function EventListeners(attrs: map<string, Value>): set<Listener>
  {
    set k | k in attrs && IsEvent(k) :: Listener(EventName(k), attrs[k])
  }

  /**
   * `createDom`: a detached node whose attributes are ALL the props except
   * `children` (the `on*` ones included) and whose listeners are the `on*` props.
   */
  function CreateDom(t: Option<EType>, props: Props): (r: DomNode)
    requires !IsComponent(t)
    ensures r.parent == None && r.children == []
    ensures r.kind == KindFor(t)
    ensures forall k :: k in props.attrs ==> k in r.attrs && r.attrs[k] == props.attrs[k]
    ensures r.attrs.Keys == props.attrs.Keys
    ensures forall k :: k in props.attrs && IsEvent(k) ==> Listener(EventName(k), props.attrs[k]) in r.listeners
    ensures forall l :: l in r.listeners ==> exists k :: k in props.attrs && IsEvent(k) && l == Listener(EventName(k), props.attrs[k])
  {
    DomNode(KindFor(t), None, [], props.attrs, EventListeners(props.attrs))
  }

  /** A fresh detached node keeps the store consistent. */
  lemma AddDetachedConsistent(s: Store, id: NodeId, n: DomNode)
    requires Consistent(s) && id !in s && n.parent == None && n.children == []
    ensures Consistent(s[id := n])
  {
    var r := s[id := n];
    forall m | m in r && r[m].parent.Some?
      ensures r[m].parent.value in r && multiset(r[r[m].parent.value].children)[m] == 1
    {
      assert m != id;
    }
  }

  // ---------------------------------------------------------------------
  // updateDom
  // ---------------------------------------------------------------------

  /** Listeners removed by the first filter of `updateDom`: those of EVERY old `on*` key. */
  function RemovedListenersOver(prev: map<string, Value>, next: map<string, Value>, keys: set<string>): set<Listener>
  {
    set k | k in keys && k in prev && IsEvent(k) && (k !in next || CurriedIsNewIsTruthy) :: Listener(EventName(k), prev[k])
  }

  /** Listeners added by the second filter: the `on*` keys whose value differs from the old one. */
  function AddedListenersOver(prev: map<string, Value>, next: map<string, Value>, keys: set<string>): set<Listener>
  {
    set k | k in keys && k in next && IsEvent(k) && IsNew(prev, next, k) :: Listener(EventName(k), next[k])
  }

  /** Attributes cleared to "": plain keys of the old props that the new props lack. */
  function ClearedOver(prev: map<string, Value>, next: map<string, Value>, keys: set<string>): map<string, Value>
  {
    map k | k in keys && k in prev && IsProperty(k) && IsGone(next, k) :: Str("")
  }

  /** Attributes set: plain keys of the new props whose value differs from the old one. */
  function ChangedOver(prev: map<string, Value>, next: map<string, Value>, keys: set<string>): map<string, Value>
  {
    map k | k in keys && k in next && IsProperty(k) && IsNew(prev, next, k) :: next[k]
  }

  /** The node after `updateDom(dom, prev, next)`; a missing props object makes it a no-op. */
  function UpdatedNode(n: DomNode, prev: Option<Props>, next: Option<Props>): DomNode
  {
    if prev.None? || next.None? then n
    else
      var p, q := prev.value.attrs, next.value.attrs;
      n.(attrs := n.attrs + ClearedOver(p, q, p.Keys) + ChangedOver(p, q, q.Keys),
         listeners := (n.listeners - RemovedListenersOver(p, q, p.Keys)) + AddedListenersOver(p, q, q.Keys))
  }

  /** Removing the listener of one more key keeps the set equal to the old one minus `RemovedListenersOver`. */
  lemma RemovedStep(ls0: set<Listener>, ls: set<Listener>, p: map<string, Value>, q: map<string, Value>, keys: set<string>, k: string)
    requires k in p && ls == ls0 - RemovedListenersOver(p, q, keys)
    ensures (if IsEvent(k) then ls - {Listener(EventName(k), p[k])} else ls) == ls0 - RemovedListenersOver(p, q, keys + {k})
  {
    if IsEvent(k) {
      assert RemovedListenersOver(p, q, keys + {k}) == RemovedListenersOver(p, q, keys) + {Listener(EventName(k), p[k])};
    } else {
      assert RemovedListenersOver(p, q, keys + {k}) == RemovedListenersOver(p, q, keys);
    }
  }

  /** Adding the listener of one more key keeps the set equal to the old one plus `AddedListenersOver`. */
  lemma AddedStep(ls0: set<Listener>, ls: set<Listener>, p: map<string, Value>, q: map<string, Value>,
                  keys: set<string>, k: string)
    requires k in q && ls == ls0 + AddedListenersOver(p, q, keys)
    ensures (if IsEvent(k) && IsNew(p, q, k) then ls + {Listener(EventName(k), q[k])} else ls) ==
              ls0 + AddedListenersOver(p, q, keys + {k})
  {
    if IsEvent(k) && IsNew(p, q, k) {
      assert AddedListenersOver(p, q, keys + {k}) == AddedListenersOver(p, q, keys) + {Listener(EventName(k), q[k])};
    } else {
      assert AddedListenersOver(p, q, keys + {k}) == AddedListenersOver(p, q, keys);
    }
  }

  /** Clearing one more key keeps the attributes equal to the old ones overridden by `ClearedOver`. */
  lemma ClearedStep(attrs0: map<string, Value>, attrs: map<string, Value>, p: map<string, Value>, q: map<string, Value>,
                    keys: set<string>, k: string)
    requires k in p && attrs == attrs0 + ClearedOver(p, q, keys)
    ensures (if IsProperty(k) && IsGone(q, k) then attrs[k := Str("")] else attrs) == attrs0 + ClearedOver(p, q, keys + {k})
  {
    if IsProperty(k) && IsGone(q, k) {
      assert ClearedOver(p, q, keys + {k}) == ClearedOver(p, q, keys)[k := Str("")];
    } else {
      assert ClearedOver(p, q, keys + {k}) == ClearedOver(p, q, keys);
    }
  }

  /** Setting one more key keeps the attributes equal to the old ones overridden by `ChangedOver`. */
  lemma ChangedStep(attrs0: map<string, Value>, attrs: map<string, Value>, p: map<string, Value>, q: map<string, Value>,
                    keys: set<string>, k: string)
    requires k in q && attrs == attrs0 + ChangedOver(p, q, keys)
    ensures (if IsProperty(k) && IsNew(p, q, k) then attrs[k := q[k]] else attrs) == attrs0 + ChangedOver(p, q, keys + {k})
  {
    if IsProperty(k) && IsNew(p, q, k) {
      assert ChangedOver(p, q, keys + {k}) == ChangedOver(p, q, keys)[k := q[k]];
    } else {
      assert ChangedOver(p, q, keys + {k}) == ChangedOver(p, q, keys);
    }
  }

  /** First pass of `updateDom`: remove the listener of every old `on*` key. */
  method RemoveOldListeners(ls0: set<Listener>, p: map<string, Value>, q: map<string, Value>) returns (ls: set<Listener>)
    ensures ls == ls0 - RemovedListenersOver(p, q, p.Keys)
  {
    var todo, done := p.Keys, {};
    ls := ls0;
    while todo != {}
      invariant todo <= p.Keys && done == p.Keys - todo
      invariant ls == ls0 - RemovedListenersOver(p, q, done)
      decreases |todo|
    {
      var k :| k in todo;
      RemovedStep(ls0, ls, p, q, done, k);
      if IsEvent(k) && (k !in q || CurriedIsNewIsTruthy) {
        ls := ls - {Listener(EventName(k), p[k])};
      }
      todo, done := todo - {k}, done + {k};
    }
    assert done == p.Keys;
  }

  /** Second pass: add the listener of every new `on*` key whose value changed. */
  method AddNewListeners(ls0: set<Listener>, p: map<string, Value>, q: map<string, Value>) returns (ls: set<Listener>)
    ensures ls == ls0 + AddedListenersOver(p, q, q.Keys)
  {
    var todo, done := q.Keys, {};
    ls := ls0;
    while todo != {}
      invariant todo <= q.Keys && done == q.Keys - todo
      invariant ls == ls0 + AddedListenersOver(p, q, done)
      decreases |todo|
    {
      var k :| k in todo;
      AddedStep(ls0, ls, p, q, done, k);
      if IsEvent(k) && IsNew(p, q, k) {
        ls := ls + {Listener(EventName(k), q[k])};
      }
      todo, done := todo - {k}, done + {k};
    }
    assert done == q.Keys;
  }

  /** Third pass: set every plain old key that the new props lack to "". */
  method ClearGoneAttrs(attrs0: map<string, Value>, p: map<string, Value>, q: map<string, Value>) returns (attrs: map<string, Value>)
    ensures attrs == attrs0 + ClearedOver(p, q, p.Keys)
  {
    var todo, done := p.Keys, {};
    attrs := attrs0;
    while todo != {}
      invariant todo <= p.Keys && done == p.Keys - todo
      invariant attrs == attrs0 + ClearedOver(p, q, done)
      decreases |todo|
    {
      var k :| k in todo;
      ClearedStep(attrs0, attrs, p, q, done, k);
      if IsProperty(k) && IsGone(q, k) {
        attrs := attrs[k := Str("")];
      }
      todo, done := todo - {k}, done + {k};
    }
    assert done == p.Keys;
  }

  /** Fourth pass: set every plain new key whose value changed. */
  method SetChangedAttrs(attrs0: map<string, Value>, p: map<string, Value>, q: map<string, Value>) returns (attrs: map<string, Value>)
    ensures attrs == attrs0 + ChangedOver(p, q, q.Keys)
  {
    var todo, done := q.Keys, {};
    attrs := attrs0;
    while todo != {}
      invariant todo <= q.Keys && done == q.Keys - todo
      invariant attrs == attrs0 + ChangedOver(p, q, done)
      decreases |todo|
    {
      var k :| k in todo;
      ChangedStep(attrs0, attrs, p, q, done, k);
      if IsProperty(k) && IsNew(p, q, k) {
        attrs := attrs[k := q[k]];
      }
      todo, done := todo - {k}, done + {k};
    }
    assert done == q.Keys;
  }

  /** `updateDom`: the four passes in the source's order, skipped when a props object is missing. */
  method UpdateDom(n: DomNode, prev: Option<Props>, next: Option<Props>) returns (r: DomNode)
    ensures r == UpdatedNode(n, prev, next)
  {
    r := n;
    if prev.None? || next.None? {
      return;
    }
    var p, q := prev.value.attrs, next.value.attrs;
    var ls := RemoveOldListeners(n.listeners, p, q);
    ls := AddNewListeners(ls, p, q);
    var attrs := ClearGoneAttrs(n.attrs, p, q);
    attrs := SetChangedAttrs(attrs, p, q);
    r := n.(attrs := attrs, listeners := ls);
  }

  /**
   * The attribute half of `updateDom`: a plain key the new props lack is set to
   * "", a plain key whose value differs is set to the new value, and every
   * other attribute (event keys, unchanged keys, keys in neither props) keeps
   * its value.
   */
  lemma UpdatedAttrs(n: DomNode, prev: Props, next: Props, k: string)
    ensures var r := UpdatedNode(n, Some(prev), Some(next));
      && (IsProperty(k) && k in prev.attrs && k !in next.attrs ==> k in r.attrs && r.attrs[k] == Str(""))
      && (IsProperty(k) && k in next.attrs && IsNew(prev.attrs, next.attrs, k) ==> k in r.attrs && r.attrs[k] == next.attrs[k])
      && (!(IsProperty(k) && (k in prev.attrs || k in next.attrs) && IsNew(prev.attrs, next.attrs, k)) ==>
            (k in r.attrs <==> k in n.attrs) && (k in n.attrs ==> r.attrs[k] == n.attrs[k]))
  {
    var p, q := prev.attrs, next.attrs;
    var r := UpdatedNode(n, Some(prev), Some(next));
    if !(IsProperty(k) && (k in p || k in q) && IsNew(p, q, k)) {
      assert k !in ClearedOver(p, q, p.Keys);
      assert k !in ChangedOver(p, q, q.Keys);
    }
  }

  /** `updateDom` with either props object missing changes nothing. */
  lemma UpdateDomMissingProps(n: DomNode, prev: Option<Props>, next: Option<Props>)
    requires prev.None? || next.None?
    ensures UpdatedNode(n, prev, next) == n
  {
  }

  /**
   * Listener quirk: the removal filter is always true, so the listener of every
   * old `on*` key is removed, and the adding filter skips keys whose value is
   * unchanged. An `on*` key with the same handler in both props therefore
   * loses its listener unless another key re-adds the same pair.
   */
  lemma UnchangedListenerDropped(n: DomNode, prev: Props, next: Props, k: string)
    requires k in prev.attrs && k in next.attrs && IsEvent(k) && prev.attrs[k] == next.attrs[k]
    requires forall k' :: k' in next.attrs && IsEvent(k') && IsNew(prev.attrs, next.attrs, k') ==>
               Listener(EventName(k'), next.attrs[k']) != Listener(EventName(k), prev.attrs[k])
    ensures Listener(EventName(k), prev.attrs[k]) !in UpdatedNode(n, Some(prev), Some(next)).listeners
  {
    var p, q := prev.attrs, next.attrs;
    assert Listener(EventName(k), p[k]) in RemovedListenersOver(p, q, p.Keys);
  }

  /** Re-rendering with identical props leaves every attribute as it was. */
  lemma UpdateSamePropsKeepsAttrs(n: DomNode, props: Props)
    ensures UpdatedNode(n, Some(props), Some(props)).attrs == n.attrs
    ensures UpdatedNode(n, Some(props), Some(props)).listeners == n.listeners - EventListeners(props.attrs)
  {
    var p := props.attrs;
    assert ClearedOver(p, p, p.Keys) == map[];
    assert ChangedOver(p, p, p.Keys) == map[];
    assert AddedListenersOver(p, p, p.Keys) == {};
    assert RemovedListenersOver(p, p, p.Keys) == EventListeners(p);
  }
}
