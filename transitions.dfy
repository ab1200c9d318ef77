/**
 * The lexical-state automaton `StateTransition.apply`
 * (src/syndantic/tokenizer/regex.py:46-79).  The state stack is a sequence whose
 * LAST element is the top, as with Python's `list.append` / `list.pop`.  Popping an
 * empty stack raises in the source; here it yields `None`.
 */
module Transitions {
  import opened Wrappers

  datatype StateTransition = Switch | Push | Pop | Stash | Swap

  /** The new current state and the new stack after a transition. */
  datatype Moved = Moved(state: string, stack: seq<string>)

  /** `state if to is None else to` */
  function Target(state: string, to: Option<string>): string
  {
    to.GetOr(state)
  }

  function Top(stack: seq<string>): string
    requires stack != []
  {
    stack[|stack| - 1]
  }

  function Below(stack: seq<string>): seq<string>
    requires stack != []
  {
    stack[..|stack| - 1]
  }

  /** The change in stack height a transition causes when it succeeds. */
  function Delta(t: StateTransition): int
  {
    match t
    case Push => 1
    case Stash => 1
    case Pop => -1
    case _ => 0
  }

  /**
   * Apply transition `t` in `state` with optional target `to` to `stack`.
   * Fails exactly when POP or SWAP find the stack empty.
   */
  function Apply(t: StateTransition, state: string, to: Option<string>, stack: seq<string>): (r: Option<Moved>)
    ensures r.None? <==> (t.Pop? || t.Swap?) && stack == []
    // SWITCH: go to `to` (or stay); the stack is untouched
    ensures t.Switch? ==> r == Some(Moved(Target(state, to), stack))
    // PUSH: remember the current state on top of the stack, then go to `to` (or stay)
    ensures t.Push? ==> r.Some? && r.value.state == Target(state, to)
                        && |r.value.stack| == |stack| + 1 && Below(r.value.stack) == stack
                        && Top(r.value.stack) == state
    // POP: the old top becomes the state and leaves the stack; `to` is ignored
    ensures t.Pop? && r.Some? ==> r.value.stack + [r.value.state] == stack
    // STASH: stay, and remember `to` (or the current state) on top of the stack
    ensures t.Stash? ==> r.Some? && r.value.state == state
                         && |r.value.stack| == |stack| + 1 && Below(r.value.stack) == stack
                         && Top(r.value.stack) == Target(state, to)
    // SWAP: the old top becomes the state; `to` (or the old state) replaces it on top
    ensures t.Swap? && r.Some? ==> r.value.state == Top(stack) && |r.value.stack| == |stack|
                                   && Below(r.value.stack) == Below(stack)
                                   && Top(r.value.stack) == Target(state, to)
  {
    match t
    case Switch => Some(Moved(Target(state, to), stack))
    case Push => PushedOnto(stack, state); Some(Moved(Target(state, to), stack + [state]))
    case Pop => if stack == [] then None else Split(stack); Some(Moved(Top(stack), Below(stack)))
    case Stash => PushedOnto(stack, Target(state, to)); Some(Moved(state, stack + [Target(state, to)]))
    case Swap =>
      if stack == [] then None
      else PushedOnto(Below(stack), Target(state, to)); Some(Moved(Top(stack), Below(stack) + [Target(state, to)]))
  }

  /** Pushing `x` makes it the top, with the old stack below it. */
  lemma PushedOnto(stack: seq<string>, x: string)
    ensures Top(stack + [x]) == x && Below(stack + [x]) == stack
  {
  }

  /** A non-empty stack is what lies below its top, with the top pushed back. */
  lemma Split(stack: seq<string>)
    requires stack != []
    ensures Below(stack) + [Top(stack)] == stack
  {
  }

  /** A successful transition changes the stack height by exactly `Delta(t)`. */
  lemma StackHeight(t: StateTransition, state: string, to: Option<string>, stack: seq<string>)
    requires Apply(t, state, to, stack).Some?
    ensures |Apply(t, state, to, stack).value.stack| == |stack| + Delta(t)
  {
    if t.Pop? {
      var m := Apply(t, state, to, stack).value;
      assert |m.stack + [m.state]| == |stack|;
    }
  }

  /** PUSH followed by POP restores both the state before the PUSH and the stack. */
  lemma PushThenPop(state: string, to: Option<string>, popTo: Option<string>, stack: seq<string>)
    ensures var pushed := Apply(Push, state, to, stack).value;
            Apply(Pop, pushed.state, popTo, pushed.stack) == Some(Moved(state, stack))
  {
    var pushed := Apply(Push, state, to, stack).value;
    assert pushed.stack == stack + [state];
    assert Below(stack + [state]) == stack;
  }

  /** STASH followed by POP goes to the stashed state and restores the stack. */
  lemma StashThenPop(state: string, to: Option<string>, popTo: Option<string>, stack: seq<string>)
    ensures var stashed := Apply(Stash, state, to, stack).value;
            Apply(Pop, stashed.state, popTo, stashed.stack) == Some(Moved(Target(state, to), stack))
  {
    var stashed := Apply(Stash, state, to, stack).value;
    assert stashed.stack == stack + [Target(state, to)];
    assert Below(stack + [Target(state, to)]) == stack;
  }

  /** SWAP without target is an involution: swapping twice restores state and stack. */
  lemma SwapTwice(state: string, stack: seq<string>)
    requires stack != []
    ensures var once := Apply(Swap, state, None, stack).value;
            Apply(Swap, once.state, None, once.stack) == Some(Moved(state, stack))
  {
    var once := Apply(Swap, state, None, stack).value;
    assert once.stack == Below(stack) + [state];
    assert Below(Below(stack) + [state]) == Below(stack);
    assert Below(stack) + [Top(stack)] == stack;
  }
}
