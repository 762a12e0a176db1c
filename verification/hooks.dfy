/**
 * The hook store's pure part: a hook cell, the fold of queued actions that
 * `useState` performs, and the hook cursor's update rule.
 */
module Hooks {
  import opened Wrappers
  import opened Elements

  /** An update function passed to a setter, by handle; what it computes is a parameter. */
  type Action = nat

  /** A state cell: the state and the actions queued on it since it was made. */
  datatype Hook = Hook(state: Value, queue: seq<Action>)

  /** `actions.forEach(action => hook.state = action(hook.state))`: a left fold. */
  function Fold(apply: (Action, Value) -> Value, s: Value, q: seq<Action>): Value
    decreases |q|
  {
    if q == [] then s else Fold(apply, apply(q[0], s), q[1..])
  }

  /** Folding one more action applies it to the result of the others. */
  lemma {:induction false} FoldSnoc(apply: (Action, Value) -> Value, s: Value, q: seq<Action>, a: Action)
    ensures Fold(apply, s, q + [a]) == apply(a, Fold(apply, s, q))
    decreases |q|
  {
    if q != [] {
      assert (q + [a])[1..] == q[1..] + [a];
      FoldSnoc(apply, apply(q[0], s), q[1..], a);
    }
  }

  /** Folding a concatenation folds the first part, then the second. */
  lemma {:induction false} FoldAppend(apply: (Action, Value) -> Value, s: Value, q1: seq<Action>, q2: seq<Action>)
    ensures Fold(apply, s, q1 + q2) == Fold(apply, Fold(apply, s, q1), q2)
    decreases |q1|
  {
    if q1 == [] {
      assert q1 + q2 == q2;
    } else {
      assert (q1 + q2)[0] == q1[0];
      assert (q1 + q2)[1..] == q1[1..] + q2;
      FoldAppend(apply, apply(q1[0], s), q1[1..], q2);
    }
  }

  /**
   * The state `useState(initial)` returns: the old cell's state with its queued
   * actions applied in order, or `initial` when there is no old cell.
   */
  function StartState(oldHook: Option<Hook>, initial: Value, apply: (Action, Value) -> Value): Value
  {
    if oldHook.Some? then Fold(apply, oldHook.value.state, oldHook.value.queue) else initial
  }

  /**
   * An action a setter queues on a cell is seen by the next render that
   * recovers that cell: it is applied last, to the state the earlier ones give.
   */
  lemma QueuedActionApplied(h: Hook, a: Action, initial: Value, apply: (Action, Value) -> Value)
    ensures StartState(Some(h.(queue := h.queue + [a])), initial, apply) == apply(a, StartState(Some(h), initial, apply))
  {
    FoldSnoc(apply, h.state, h.queue, a);
  }

  /** `if (!!hookIndex) hookIndex = hookIndex + 1`: the cursor only moves once it is non-zero. */
  function NextHookIndex(i: nat): nat
  {
    if i != 0 then i + 1 else 0
  }

  /** The cursor after `n` calls of `useState`. */
  function HookIndexAfter(i: nat, n: nat): nat
    decreases n
  {
    if n == 0 then i else HookIndexAfter(NextHookIndex(i), n - 1)
  }

  /**
   * Hook-cursor quirk: `updateFunctionComponent` resets the cursor to 0, and from
   * 0 it never moves, so every `useState` call of a component reads cell 0.
   */
  lemma {:induction false} HookIndexStaysZero(n: nat)
    ensures HookIndexAfter(0, n) == 0
    decreases n
  {
    if n > 0 {
      HookIndexStaysZero(n - 1);
    }
  }

  /** From a non-zero cursor the rule does count calls. */
  lemma {:induction false} HookIndexCountsFromNonZero(i: nat, n: nat)
    requires i != 0
    ensures HookIndexAfter(i, n) == i + n
    decreases n
  {
    if n > 0 {
      HookIndexCountsFromNonZero(i + 1, n - 1);
    }
  }
}
