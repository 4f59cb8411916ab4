// Source/Public/Stateful/Navigation/StatefulNavigationController.swift: the
// earlier revision of the navigation engine, whose states decide popping
// through `NavigationEquatable.canPop(to:for:)`.
//
// Its stack, states and correspondence are those of the current revision
// (module CurrentStack). Its transition differs: finding a state to pop
// to always overwrites, and the closure handed to that pop is the caller's
// own, so `state` is never committed there. `Transitioned` and the class
// follow the evident intent; `TransitionedAsWritten` is the code as it
// stands.

module StatefulStack {
  import opened Wrappers
  import opened Sequences
  import opened UIKitStacks
  import opened NavigationBookkeeping
  import CurrentStack

  /** `NavigationEquatable`'s default `canPop(to:for:)`: equal states. */
  function DefaultCanPop<S(==)>(oldState: S, newState: S): (r: bool)
    ensures r <==> oldState == newState
  {
    oldState == newState
  }

  /** The branches of `transition(to:canPop:animated:completion:)`: there
      is no pop to an equal state without overwriting. */
  function BranchOf<S(==), C(==)>(n: CurrentStack.Nav<S, C>, childFor: S -> C, canPopTo: (S, S) -> bool,
                                  newState: S, canPop: bool): (r: CurrentStack.Branch)
    ensures !r.PopToEqual?
    ensures r.OverwriteThenPop? ==> r.index < |n.states|
  {
    var newChild := childFor(newState);
    var popIndex := CurrentStack.PopIndex(n.states, canPopTo, newState);
    if n.stack == [] then CurrentStack.Configure
    else if newChild in n.stack then CurrentStack.PopToContained
    else if canPop && popIndex.Some? then CurrentStack.OverwriteThenPop(popIndex.value)
    else CurrentStack.Push
  }

  /** What a transition leaves behind when the overwriting pop commits the
      new state and records it at the overwritten position. */
  function Transitioned<S(==), C(==)>(n: CurrentStack.Nav<S, C>, childFor: S -> C, canPopTo: (S, S) -> bool,
                                      newState: S, canPop: bool): CurrentStack.Nav<S, C>
    requires CurrentStack.InStep(n)
  {
    var c := childFor(newState);
    match BranchOf(n, childFor, canPopTo, newState, canPop)
    case OverwriteThenPop(i) =>
      assert n.stack[i := c][i] == c;
      var stack := PoppedTo(n.stack[i := c], c);
      CurrentStack.Nav(stack, Prefix(n.states[i := newState], |stack|), newState)
    case PopToContained =>
      var stack := PoppedTo(n.stack, c);
      CurrentStack.Nav(stack, Prefix(n.states, |stack|), newState)
    case Push => CurrentStack.Nav(n.stack + [c], n.states + [newState], newState)
    case _ => CurrentStack.Nav([c], [newState], newState)
  }

  /** The transition as written: the overwriting pop keeps the old state
      and the old recorded entry. */
  function TransitionedAsWritten<S(==), C(==)>(n: CurrentStack.Nav<S, C>, childFor: S -> C, canPopTo: (S, S) -> bool,
                                               newState: S, canPop: bool): CurrentStack.Nav<S, C>
    requires CurrentStack.InStep(n)
  {
    var c := childFor(newState);
    match BranchOf(n, childFor, canPopTo, newState, canPop)
    case OverwriteThenPop(i) =>
      assert n.stack[i := c][i] == c;
      var stack := PoppedTo(n.stack[i := c], c);
      CurrentStack.Nav(stack, Prefix(n.states, |stack|), n.state)
    case _ => Transitioned(n, childFor, canPopTo, newState, canPop)
  }

  /** `augmentedCompletion`: commit the state, then the caller's
      completion. */
  function Augmented<S, A>(newState: S, completion: seq<A>): seq<Action<S, A>>
  {
    [CommitState(newState)] + Callers(completion)
  }

  /** The calls a transition makes and the closure actions it runs, with
      the overwriting pop handed `augmentedCompletion`. */
  function TransitionEvents<S(==), C(==), A>(n: CurrentStack.Nav<S, C>, childFor: S -> C, canPopTo: (S, S) -> bool,
                                             newState: S, canPop: bool, animated: bool,
                                             completion: seq<A>): seq<NavEvent<C, Action<S, A>>>
    requires CurrentStack.InStep(n)
  {
    var c := childFor(newState);
    match BranchOf(n, childFor, canPopTo, newState, canPop)
    case OverwriteThenPop(i) =>
      [Overwrote(i, c), Popped(c, animated)] + Performs([TruncateStates] + Augmented(newState, completion))
    case PopToContained => [Popped(c, animated)] + Performs([TruncateStates] + Augmented(newState, completion))
    case Push => [Pushed(c, animated)] + Performs([AppendState(newState)] + Augmented(newState, completion))
    case _ => [SetStack([c]), Embed] + Performs(Callers(completion))
  }

  /** The same, as written: the overwriting pop is handed the caller's
      completion alone. */
  function TransitionEventsAsWritten<S(==), C(==), A>(n: CurrentStack.Nav<S, C>, childFor: S -> C,
                                                      canPopTo: (S, S) -> bool, newState: S, canPop: bool,
                                                      animated: bool, completion: seq<A>): seq<NavEvent<C, Action<S, A>>>
    requires CurrentStack.InStep(n)
  {
    var c := childFor(newState);
    match BranchOf(n, childFor, canPopTo, newState, canPop)
    case OverwriteThenPop(i) =>
      [Overwrote(i, c), Popped(c, animated)] + Performs([TruncateStates] + Callers(completion))
    case _ => TransitionEvents(n, childFor, canPopTo, newState, canPop, animated, completion)
  }

  class StatefulNavigationController<S(==), C(==), A> {
    const nav: NavigationStack<C>
    const childFor: S -> C
    const canPopTo: (S, S) -> bool
    var state: S
    var statesInNavigationStack: seq<S>
    var trace: seq<NavEvent<C, Action<S, A>>>

    /** `init(initialState:)`: an empty navigation controller. */
    constructor (initialState: S, childFor: S -> C, canPopTo: (S, S) -> bool)
      ensures state == initialState && statesInNavigationStack == [] && trace == []
      ensures this.childFor == childFor && this.canPopTo == canPopTo
      ensures fresh(nav) && nav.controllers == []
    {
      state := initialState;
      statesInNavigationStack := [];
      trace := [];
      this.childFor := childFor;
      this.canPopTo := canPopTo;
      nav := new NavigationStack();
    }

    function Snapshot(): CurrentStack.Nav<S, C>
      reads this, nav
    {
      CurrentStack.Nav(nav.controllers, statesInNavigationStack, state)
    }

    predicate Valid()
      reads this, nav
    {
      CurrentStack.InStep(Snapshot())
    }

    /** `configureInitialState()`. */
    method ConfigureInitialState()
      modifies this, nav
      ensures nav.controllers == [childFor(old(state))]
      ensures statesInNavigationStack == [old(state)] && state == old(state)
      ensures trace == old(trace) + [SetStack([childFor(old(state))]), Embed]
      ensures Valid()
    {
      var initialChild := childFor(state);
      nav.SetViewControllers([initialChild]);
      trace := trace + [SetStack([initialChild]), Embed];
      statesInNavigationStack := [state];
    }

    /** Invoking a closure: its actions run in order. */
    method Run(actions: seq<Action<S, A>>)
      modifies this
      ensures Book(statesInNavigationStack, state)
              == ApplyAll(old(Book(statesInNavigationStack, state)), |nav.controllers|, actions)
      ensures trace == old(trace) + Performs(actions)
    {
      var b := ApplyAll(Book(statesInNavigationStack, state), |nav.controllers|, actions);
      statesInNavigationStack := b.states;
      state := b.state;
      trace := trace + Performs(actions);
    }

    /** `pop(to:animated:completion:)`: the closure cuts the states to the
        new depth, then runs `completion`. */
    method Pop(existingChild: C, animated: bool, completion: seq<Action<S, A>>)
      requires existingChild in nav.controllers
      modifies this, nav
      ensures nav.controllers == PoppedTo(old(nav.controllers), existingChild)
      ensures Book(statesInNavigationStack, state)
              == ApplyAll(old(Book(statesInNavigationStack, state)), |nav.controllers|, [TruncateStates] + completion)
      ensures trace == old(trace) + ([Popped(existingChild, animated)] + Performs([TruncateStates] + completion))
    {
      nav.PopTo(existingChild);
      trace := trace + [Popped(existingChild, animated)];
      Run([TruncateStates] + completion);
      AppendAssoc(old(trace), [Popped(existingChild, animated)], Performs([TruncateStates] + completion));
    }

    /** `push(_:for:animated:completion:)`: the closure records the new
        state, then runs `completion`. */
    method Push(newChild: C, newState: S, animated: bool, completion: seq<Action<S, A>>)
      requires newChild !in nav.controllers
      modifies this, nav
      ensures nav.controllers == old(nav.controllers) + [newChild]
      ensures Book(statesInNavigationStack, state)
              == ApplyAll(old(Book(statesInNavigationStack, state)), |nav.controllers|,
                          [AppendState(newState)] + completion)
      ensures trace == old(trace) + ([Pushed(newChild, animated)] + Performs([AppendState(newState)] + completion))
    {
      var _ := nav.Push(newChild);
      trace := trace + [Pushed(newChild, animated)];
      Run([AppendState(newState)] + completion);
      AppendAssoc(old(trace), [Pushed(newChild, animated)], Performs([AppendState(newState)] + completion));
    }

    /** `transition(to:canPop:animated:completion:)`, with the overwriting
        pop committing the new state and recording it. */
    method Transition(newState: S, canPop: bool, animated: bool, completion: seq<A>)
      requires Valid()
      modifies this, nav
      ensures Snapshot() == Transitioned(old(Snapshot()), childFor, canPopTo, newState, canPop)
      ensures trace == old(trace) + TransitionEvents(old(Snapshot()), childFor, canPopTo, newState, canPop,
                                                     animated, completion)
      ensures Valid()
    {
      ghost var before := Snapshot();
      ghost var branch := BranchOf(before, childFor, canPopTo, newState, canPop);
      ghost var after := Transitioned(before, childFor, canPopTo, newState, canPop);
      ghost var events := TransitionEvents(before, childFor, canPopTo, newState, canPop, animated, completion);
      if nav.controllers == [] {
        assert branch == CurrentStack.Configure;
        state := newState;
        ConfigureInitialState();
        CallersKeepTheBook(Book([newState], newState), 1, completion);
        Run(Callers(completion));
        assert after == CurrentStack.Nav([childFor(newState)], [newState], newState);
        AppendAssoc(old(trace), [SetStack([childFor(newState)]), Embed], Performs<C, Action<S, A>>(Callers(completion)));
        return;
      }
      var newChild := childFor(newState);
      if newChild in nav.controllers {
        assert branch == CurrentStack.PopToContained;
        PopCommitting(newChild, newState, animated, completion);
        assert after == Snapshot();
        return;
      }
      var popIndex := CurrentStack.PopIndex(statesInNavigationStack, canPopTo, newState);
      if canPop && popIndex.Some? {
        assert branch == CurrentStack.OverwriteThenPop(popIndex.value);
        OverwriteThenPopCommitting(popIndex.value, newChild, newState, animated, completion);
        assert after == Snapshot();
      } else {
        assert branch.Push?;
        PushCommitting(newChild, newState, animated, completion);
        assert after == Snapshot();
      }
    }

    /** A transition's pop with `augmentedCompletion`. */
    method PopCommitting(existingChild: C, newState: S, animated: bool, completion: seq<A>)
      requires existingChild in nav.controllers && Valid()
      modifies this, nav
      ensures nav.controllers == PoppedTo(old(nav.controllers), existingChild)
      ensures statesInNavigationStack == Prefix(old(statesInNavigationStack), |nav.controllers|)
      ensures state == newState
      ensures trace == old(trace) + ([Popped(existingChild, animated)]
                                     + Performs([TruncateStates] + Augmented(newState, completion)))
      ensures Valid()
    {
      var augmented := Augmented(newState, completion);
      assert [TruncateStates] + augmented == [TruncateStates, CommitState(newState)] + Callers(completion);
      PopBookkeeping(Book(statesInNavigationStack, state), |PoppedTo(nav.controllers, existingChild)|, newState, completion);
      Pop(existingChild, animated, augmented);
    }

    /** A transition's overwrite: the controller and its recorded state at
        `index` are replaced, and the stack is popped back to it with
        `augmentedCompletion`. */
    method OverwriteThenPopCommitting(index: nat, newChild: C, newState: S, animated: bool, completion: seq<A>)
      requires index < |nav.controllers| && Valid()
      modifies this, nav
      ensures old(nav.controllers)[index := newChild][index] == newChild
      ensures nav.controllers == PoppedTo(old(nav.controllers)[index := newChild], newChild)
      ensures statesInNavigationStack == Prefix(old(statesInNavigationStack)[index := newState], |nav.controllers|)
      ensures state == newState
      ensures trace == old(trace) + ([Overwrote(index, newChild), Popped(newChild, animated)]
                                     + Performs([TruncateStates] + Augmented(newState, completion)))
      ensures Valid()
    {
      nav.Overwrite(index, newChild);
      trace := trace + [Overwrote(index, newChild)];
      // the correction: keep the recorded state in step with the controller
      statesInNavigationStack := statesInNavigationStack[index := newState];
      assert nav.controllers[index] == newChild;
      PopCommitting(newChild, newState, animated, completion);
      AppendAssoc(old(trace), [Overwrote(index, newChild)],
                  [Popped(newChild, animated)] + Performs([TruncateStates] + Augmented(newState, completion)));
    }

    /** A transition's push with `augmentedCompletion`. */
    method PushCommitting(newChild: C, newState: S, animated: bool, completion: seq<A>)
      requires newChild !in nav.controllers && Valid()
      modifies this, nav
      ensures nav.controllers == old(nav.controllers) + [newChild]
      ensures statesInNavigationStack == old(statesInNavigationStack) + [newState]
      ensures state == newState
      ensures trace == old(trace) + ([Pushed(newChild, animated)]
                                     + Performs([AppendState(newState)] + Augmented(newState, completion)))
      ensures Valid()
    {
      var augmented := Augmented(newState, completion);
      assert [AppendState(newState)] + augmented == [AppendState(newState), CommitState(newState)] + Callers(completion);
      PushBookkeeping(Book(statesInNavigationStack, state), |nav.controllers| + 1, newState, completion);
      Push(newChild, newState, animated, augmented);
    }

    /** The navigation controller reported its depth. */
    method DidUpdateStackCount(stackCount: nat)
      modifies this
      ensures statesInNavigationStack == Prefix(old(statesInNavigationStack), stackCount)
      ensures state == old(state) && trace == old(trace)
      ensures stackCount == |nav.controllers| && stackCount <= old(|statesInNavigationStack|) ==> Valid()
    {
      statesInNavigationStack := Prefix(statesInNavigationStack, stackCount);
    }
  }

  /** Corrected, this revision keeps every controller the one made for its
      recorded state, and commits the new state with its child on top. */
  lemma TransitionKeepsCorrespondence<S, C>(n: CurrentStack.Nav<S, C>, childFor: S -> C, canPopTo: (S, S) -> bool,
                                            newState: S, canPop: bool)
    requires CurrentStack.Corresponds(n, childFor)
    ensures var r := Transitioned(n, childFor, canPopTo, newState, canPop);
            CurrentStack.Corresponds(r, childFor) && r.state == newState && r.stack[|r.stack| - 1] == childFor(newState)
  {
    CurrentStack.CorrespondenceRulesOutPopToEqual(n, childFor, canPopTo, newState, canPop);
    SameAsCurrent(n, childFor, canPopTo, newState, canPop);
    CurrentStack.TransitionKeepsCorrespondence(n, childFor, canPopTo, newState, canPop);
  }

  /** On a recorded stack with one state per controller, a transition keeps
      one state per controller and leaves the new state's child on top,
      both as written and corrected; the corrected transition always
      commits the new state, the code as written everywhere but in the
      overwriting pop. */
  lemma TransitionKeepsStatesInStep<S, C>(n: CurrentStack.Nav<S, C>, childFor: S -> C, canPopTo: (S, S) -> bool,
                                          newState: S, canPop: bool)
    requires CurrentStack.InStep(n)
    ensures var r := Transitioned(n, childFor, canPopTo, newState, canPop);
            CurrentStack.InStep(r) && r.state == newState
            && |r.stack| > 0 && r.stack[|r.stack| - 1] == childFor(newState)
    ensures var r := TransitionedAsWritten(n, childFor, canPopTo, newState, canPop);
            CurrentStack.InStep(r)
            && |r.stack| > 0 && r.stack[|r.stack| - 1] == childFor(newState)
            && r.state == (if BranchOf(n, childFor, canPopTo, newState, canPop).OverwriteThenPop? then n.state else newState)
  {
    var c := childFor(newState);
    match BranchOf(n, childFor, canPopTo, newState, canPop)
    case Configure =>
    case PopToContained =>
    case OverwriteThenPop(i) =>
      assert n.stack[i := c][i] == c;
    case Push =>
  }

  /** Wherever the current revision does not pop to an equal recorded
      state, the corrected earlier revision leaves the same stack, states
      and state. */
  lemma SameAsCurrent<S, C>(n: CurrentStack.Nav<S, C>, childFor: S -> C, canPopTo: (S, S) -> bool,
                            newState: S, canPop: bool)
    requires CurrentStack.InStep(n)
    requires !CurrentStack.BranchOf(n, childFor, canPopTo, newState, canPop).PopToEqual?
    ensures BranchOf(n, childFor, canPopTo, newState, canPop) == CurrentStack.BranchOf(n, childFor, canPopTo, newState, canPop)
    ensures Transitioned(n, childFor, canPopTo, newState, canPop)
            == CurrentStack.Transitioned(n, childFor, canPopTo, newState, canPop)
  {
  }

  /** As written, an overwriting pop leaves `state` as it was although the
      new state's child is on top, and the entry under it records a state
      that made another controller. */
  lemma AsWrittenPopKeepsOldState<S, C>(n: CurrentStack.Nav<S, C>, childFor: S -> C, canPopTo: (S, S) -> bool,
                                        newState: S, canPop: bool)
    requires CurrentStack.Corresponds(n, childFor) && n.state != newState
    requires BranchOf(n, childFor, canPopTo, newState, canPop).OverwriteThenPop?
    ensures var r := TransitionedAsWritten(n, childFor, canPopTo, newState, canPop);
            r.state == n.state && r.state != newState
            && r.stack[|r.stack| - 1] == childFor(newState)
            && !CurrentStack.Corresponds(r, childFor)
  {
    var c := childFor(newState);
    var i := BranchOf(n, childFor, canPopTo, newState, canPop).index;
    var r := TransitionedAsWritten(n, childFor, canPopTo, newState, canPop);
    CurrentStack.OverwriteThenPopShape(n.stack, i, c);
    assert r.stack == n.stack[..i] + [c];
    assert r.states == n.states[..i + 1];
    assert n.stack[i] == childFor(n.states[i]) && n.stack[i] in n.stack;
  }

  /** As written, the overwriting pop's closure never commits a state:
      it cuts the states and then runs the caller's completion only. */
  lemma AsWrittenPopNeverCommits<S, C, A>(n: CurrentStack.Nav<S, C>, childFor: S -> C, canPopTo: (S, S) -> bool,
                                          newState: S, canPop: bool, animated: bool, completion: seq<A>, s: S)
    requires CurrentStack.InStep(n)
    requires BranchOf(n, childFor, canPopTo, newState, canPop).OverwriteThenPop?
    ensures Performed(CommitState(s))
            !in TransitionEventsAsWritten(n, childFor, canPopTo, newState, canPop, animated, completion)
    ensures Performed(CommitState(newState))
            in TransitionEvents(n, childFor, canPopTo, newState, canPop, animated, completion)
  {
    var c := childFor(newState);
    var i := BranchOf(n, childFor, canPopTo, newState, canPop).index;
    var closure: seq<Action<S, A>> := [TruncateStates] + Callers(completion);
    var e := TransitionEventsAsWritten(n, childFor, canPopTo, newState, canPop, animated, completion);
    assert e == [Overwrote(i, c), Popped(c, animated)] + Performs(closure);
    forall k | 0 <= k < |e|
      ensures e[k] != Performed(CommitState(s))
    {
      if k >= 2 {
        assert e[k] == Performed(closure[k - 2]);
      }
    }
    var fixed := TransitionEvents(n, childFor, canPopTo, newState, canPop, animated, completion);
    assert fixed[3] == Performed(CommitState(newState));
  }
}
