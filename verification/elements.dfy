/** Option, shared by every module of the model. */
module Wrappers {
  datatype Option<+T> = None | Some(value: T)
}

/**
 * Element descriptions: the plain `{type, props}` objects built by
 * `createElement` and `createTextElement`, and the flattening of a nested
 * child list that the host-component step performs.
 */
module Elements {
  import opened Wrappers

  /** A component is an opaque handle; what its body does is a parameter of the model. */
  type CompId = nat

  /**
   * A JavaScript value that can sit in a props object. A function value is
   * identified by a handle, so `!==` on two of them is identity, as in the source.
   */
  datatype Value = Str(s: string) | Num(n: int) | Bool(b: bool) | Fn(handle: nat)

  /** The `type` of an element: a host tag string (including "TEXT_ELEMENT") or a component. */
  datatype EType = Tag(name: string) | Comp(id: CompId)

  const TEXT_ELEMENT: string := "TEXT_ELEMENT"

  /**
   * A child as it is stored in `props.children`: an element, an array produced by
   * `.map` (kept nested until flattening), or `null`.
   */
  datatype Child = Elem(e: Element) | Nested(items: seq<Child>) | Null

  /** `props` of an element; the `children` key is kept apart from the other keys. */
  datatype Props = Props(attrs: map<string, Value>, children: seq<Child>)

  datatype Element = Element(etype: EType, props: Props)

  /** An argument of `createElement` after the props: a raw value, or an object child. */
  datatype Arg = Raw(v: Value) | Obj(c: Child)

  /** `createTextElement`: a TEXT_ELEMENT leaf whose only attribute is `nodeValue`. */
  function CreateTextElement(v: Value): (r: Element)
    ensures r.etype == Tag(TEXT_ELEMENT)
    ensures r.props.attrs.Keys == {"nodeValue"} && r.props.attrs["nodeValue"] == v
    ensures r.props.children == []
    ensures "children" !in r.props.attrs
  {
    Element(Tag(TEXT_ELEMENT), Props(map["nodeValue" := v], []))
  }

  /** What `children.map(...)` makes of one argument. */
  function WrapChild(a: Arg): Child
  {
    match a
    case Raw(v) => Elem(CreateTextElement(v))
    case Obj(c) => c
  }

  /** `children.map(...)`: every argument wrapped, in order. */
  function WrapChildren(args: seq<Arg>): (r: seq<Child>)
    ensures |r| == |args|
    ensures forall i :: 0 <= i < |args| ==> r[i] == WrapChild(args[i])
  {
    if args == [] then [] else [WrapChild(args[0])] + WrapChildren(args[1..])
  }

  /**
   * `createElement(type, props, ...children)`: the given props without a
   * `children` key, and exactly one child per argument in the same order; a raw
   * value becomes a TEXT_ELEMENT leaf holding it, an object child is kept as it is.
   */
  function CreateElement(t: EType, props: map<string, Value>, args: seq<Arg>): (r: Element)
    ensures r.etype == t
    ensures r.props.attrs == props - {"children"}
    ensures "children" !in r.props.attrs
    ensures |r.props.children| == |args|
    ensures forall i :: 0 <= i < |args| && args[i].Raw? ==>
              r.props.children[i] == Elem(CreateTextElement(args[i].v))
    ensures forall i :: 0 <= i < |args| && args[i].Obj? ==> r.props.children[i] == args[i].c
  {
    Element(t, Props(props - {"children"}, WrapChildren(args)))
  }

  /**
   * `children.flat(Infinity)`: nested arrays spliced in place, in order. An
   * element becomes `Some`, a `null` child stays as `None`.
   */
  function Flatten(cs: seq<Child>): seq<Option<Element>>
  {
    if cs == [] then []
    else
      match cs[0]
      case Elem(e) => [Some(e)] + Flatten(cs[1..])
      case Null => [None] + Flatten(cs[1..])
      case Nested(items) => Flatten(items) + Flatten(cs[1..])
  }

  /** A child list with no nested array in it. */
  predicate IsFlat(cs: seq<Child>)
  {
    forall i :: 0 <= i < |cs| ==> !cs[i].Nested?
  }

  /** Flattening distributes over concatenation. */
  lemma {:induction false} FlattenAppend(a: seq<Child>, b: seq<Child>)
    ensures Flatten(a + b) == Flatten(a) + Flatten(b)
    decreases |a|
  {
    if a == [] {
      assert a + b == b;
    } else {
      assert (a + b)[0] == a[0];
      assert (a + b)[1..] == a[1..] + b;
      FlattenAppend(a[1..], b);
    }
  }

  /** A flat child list is flattened position by position: nothing is dropped or reordered. */
  lemma {:induction false} FlattenFlat(cs: seq<Child>)
    requires IsFlat(cs)
    ensures |Flatten(cs)| == |cs|
    ensures forall i :: 0 <= i < |cs| ==>
              Flatten(cs)[i] == (if cs[i].Elem? then Some(cs[i].e) else None)
  {
    if cs != [] {
      FlattenFlat(cs[1..]);
    }
  }

  /** The children that `createElement` produces are flat when no argument is an array. */
  lemma CreateElementFlat(t: EType, props: map<string, Value>, args: seq<Arg>)
    requires forall i :: 0 <= i < |args| && args[i].Obj? ==> !args[i].c.Nested?
    ensures IsFlat(CreateElement(t, props, args).props.children)
  {
  }
}
