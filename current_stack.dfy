// Source/Public/Containers/StatefulNavigationController.swift: a view
// controller that embeds a navigation controller and keeps, beside its
// stack, the state each controller on it was made for.
//
// The subclass's `childViewController(for:)` and
// `shouldPopToViewController(from:to:)` are the function fields `childFor`
// and `shouldPopToViewController`. The completion closures are recorded by
// their actions and run, in order, on the engine's bookkeeping.

module CurrentStack {
  import opened Wrappers
  import opened Sequences
  import opened Closures
  import opened UIKitStacks
  import opened NavigationBookkeeping

  /** The default `shouldPopToViewController(from:to:)`: equal states. */
  function DefaultShouldPop<S(==)>(oldState: S, newState: S): (r: bool)
    ensures r <==> oldState == newState
  {
    oldState == newState
  }

  /** `popIndex(for:)`: the last position whose state the predicate
      accepts for `newState`. */
  function PopIndex<S>(states: seq<S>, shouldPop: (S, S) -> bool, newState: S): (r: Option<nat>)
    ensures r.None? <==> forall i :: 0 <= i < |states| ==> !shouldPop(states[i], newState)
    ensures r.Some? ==> r.value < |states| && shouldPop(states[r.value], newState)
    ensures r.Some? ==> forall j :: r.value < j < |states| ==> !shouldPop(states[j], newState)
  {
    LastIndexWhere(states, s => shouldPop(s, newState))
  }

  /** The engine's observable state: the navigation stack (bottom first),
      `statesInNavigationStack` and `state`. */
  datatype Nav<S, C> = Nav(stack: seq<C>, states: seq<S>, state: S)

  /** One state recorded per controller on the stack. */
  predicate InStep<S, C>(n: Nav<S, C>)
  {
    |n.states| == |n.stack|
  }

  /** Each controller on the stack is the one made for the state recorded
      at its position. */
  predicate Corresponds<S, C(==)>(n: Nav<S, C>, childFor: S -> C)
  {
    InStep(n) && forall i :: 0 <= i < |n.stack| ==> n.stack[i] == childFor(n.states[i])
  }

  /** The branches of `transition(to:animated:canPopToExistingState:completion:)`. */
  datatype Branch = Configure | PopToContained | PopToEqual(index: nat) | OverwriteThenPop(index: nat) | Push

  function BranchOf<S(==), C(==)>(n: Nav<S, C>, childFor: S -> C, shouldPop: (S, S) -> bool,
                                  newState: S, canPop: bool): (r: Branch)
    ensures (r.PopToEqual? || r.OverwriteThenPop?) ==> r.index < |n.states|
  {
    var newChild := childFor(newState);
    var popIndex := if canPop then PopIndex(n.states, shouldPop, newState) else None;
    if n.stack == [] then Configure
    else if newChild in n.stack then PopToContained
    else if popIndex.Some? then
      if n.states[popIndex.value] == newState then PopToEqual(popIndex.value)
      else OverwriteThenPop(popIndex.value)
    else Push
  }

  /** What a transition leaves behind, with the state entry at the
      overwritten position brought up to date (see `TransitionedAsWritten`
      for the code as it stands). */
  function Transitioned<S(==), C(==)>(n: Nav<S, C>, childFor: S -> C, shouldPop: (S, S) -> bool,
                                      newState: S, canPop: bool): Nav<S, C>
    requires InStep(n)
  {
    var c := childFor(newState);
    match BranchOf(n, childFor, shouldPop, newState, canPop)
    case Configure => Nav([c], [newState], newState)
    case PopToContained =>
      var stack := PoppedTo(n.stack, c);
      Nav(stack, Prefix(n.states, |stack|), newState)
    case PopToEqual(i) =>
      var stack := PoppedTo(n.stack, n.stack[i]);
      Nav(stack, Prefix(n.states, |stack|), newState)
    case OverwriteThenPop(i) =>
      assert n.stack[i := c][i] == c;
      var stack := PoppedTo(n.stack[i := c], c);
      Nav(stack, Prefix(n.states[i := newState], |stack|), newState)
    case Push => Nav(n.stack + [c], n.states + [newState], newState)
  }

  /** The transition as written: the overwriting branch replaces the
      controller at `popIndex` but keeps the old state recorded there. */
  function TransitionedAsWritten<S(==), C(==)>(n: Nav<S, C>, childFor: S -> C, shouldPop: (S, S) -> bool,
                                               newState: S, canPop: bool): Nav<S, C>
    requires InStep(n)
  {
    var c := childFor(newState);
    match BranchOf(n, childFor, shouldPop, newState, canPop)
    case OverwriteThenPop(i) =>
      assert n.stack[i := c][i] == c;
      var stack := PoppedTo(n.stack[i := c], c);
      Nav(stack, Prefix(n.states, |stack|), newState)
    case _ => Transitioned(n, childFor, shouldPop, newState, canPop)
  }

  /** The completion every transition builds: commit the state, then the
      caller's completion. */
  function Committing<S, A>(newState: S, completion: seq<A>): seq<Action<S, A>>
  {
    Insert([CommitState(newState)], Some(Callers(completion)))
  }

  /** The calls a transition makes and the closure actions it runs, in
      order. */
  function TransitionEvents<S(==), C(==), A>(n: Nav<S, C>, childFor: S -> C, shouldPop: (S, S) -> bool,
                                             newState: S, animated: bool, canPop: bool,
                                             completion: seq<A>): seq<NavEvent<C, Action<S, A>>>
    requires InStep(n)
  {
    var c := childFor(newState);
    var full := Committing(newState, completion);
    match BranchOf(n, childFor, shouldPop, newState, canPop)
    case Configure => [SetStack([c]), Embed] + Performs(full)
    case PopToContained => [Popped(c, animated)] + Performs(Insert([TruncateStates], Some(full)))
    case PopToEqual(i) => [Popped(n.stack[i], animated)] + Performs(Insert([TruncateStates], Some(full)))
    case OverwriteThenPop(i) =>
      [Overwrote(i, c), Popped(c, animated)] + Performs(Insert([TruncateStates], Some(full)))
    case Push => [Pushed(c, animated)] + Performs(Insert([AppendState(newState)], Some(full)))
  }

  class StatefulNavigationController<S(==), C(==), A> {
    const nav: NavigationStack<C>
    const childFor: S -> C
    const shouldPopToViewController: (S, S) -> bool
    var state: S
    var statesInNavigationStack: seq<S>
    var trace: seq<NavEvent<C, Action<S, A>>>

    /** `init(initialState:)`: an empty navigation controller. */
    constructor (initialState: S, childFor: S -> C, shouldPopToViewController: (S, S) -> bool)
      ensures state == initialState && statesInNavigationStack == [] && trace == []
      ensures this.childFor == childFor && this.shouldPopToViewController == shouldPopToViewController
      ensures fresh(nav) && nav.controllers == []
    {
      state := initialState;
      statesInNavigationStack := [];
      trace := [];
      this.childFor := childFor;
      this.shouldPopToViewController := shouldPopToViewController;
      nav := new NavigationStack();
    }

    function Snapshot(): Nav<S, C>
      reads this, nav
    {
      Nav(nav.controllers, statesInNavigationStack, state)
    }

    /** `currentChild`: the controller on top of the stack. */
    function CurrentChild(): (r: Option<C>)
      reads this, nav
      ensures r == nav.Top()
    {
      nav.Top()
    }

    predicate Valid()
      reads this, nav
    {
      InStep(Snapshot())
    }

    /** `configureInitialState()`: a one-controller stack for the current
        state. */
    method ConfigureInitialState()
      modifies this, nav
      ensures nav.controllers == [childFor(old(state))]
      ensures statesInNavigationStack == [old(state)] && state == old(state)
      ensures trace == old(trace) + [SetStack([childFor(old(state))]), Embed]
      ensures Valid()
    {
      var initialChild := childFor(state);
      nav.SetViewControllers([initialChild]);
      trace := trace + [SetStack([initialChild]), Embed];
      statesInNavigationStack := [state];
    }

    /** Invoking a closure: its actions run in order, on a stack that does
        not change meanwhile. */
    method Run(actions: seq<Action<S, A>>)
      modifies this
      ensures Book(statesInNavigationStack, state)
              == ApplyAll(old(Book(statesInNavigationStack, state)), |nav.controllers|, actions)
      ensures trace == old(trace) + Performs(actions)
    {
      var b := ApplyAll(Book(statesInNavigationStack, state), |nav.controllers|, actions);
      statesInNavigationStack := b.states;
      state := b.state;
      trace := trace + Performs(actions);
    }

    /** `pop(to:animated:completion:)`. Animated or not, the closure runs
        once, after the pop (through `CATransaction` when animated). */
    method Pop(existingChild: C, animated: bool, completion: seq<Action<S, A>>)
      requires existingChild in nav.controllers
      modifies this, nav
      ensures nav.controllers == PoppedTo(old(nav.controllers), existingChild)
      ensures Book(statesInNavigationStack, state)
              == ApplyAll(old(Book(statesInNavigationStack, state)), |nav.controllers|,
                          Insert([TruncateStates], Some(completion)))
      ensures trace == old(trace) + [Popped(existingChild, animated)]
                       + Performs(Insert([TruncateStates], Some(completion)))
    {
      var augmented := Insert([TruncateStates], Some(completion));
      nav.PopTo(existingChild);
      trace := trace + [Popped(existingChild, animated)];
      Run(augmented);
    }

    /** `push(_:for:animated:completion:)`. */
    method Push(newChild: C, newState: S, animated: bool, completion: seq<Action<S, A>>)
      requires newChild !in nav.controllers
      modifies this, nav
      ensures nav.controllers == old(nav.controllers) + [newChild]
      ensures Book(statesInNavigationStack, state)
              == ApplyAll(old(Book(statesInNavigationStack, state)), |nav.controllers|,
                          Insert([AppendState(newState)], Some(completion)))
      ensures trace == old(trace) + [Pushed(newChild, animated)]
                       + Performs(Insert([AppendState(newState)], Some(completion)))
    {
      var augmented := Insert([AppendState(newState)], Some(completion));
      var _ := nav.Push(newChild);
      trace := trace + [Pushed(newChild, animated)];
      Run(augmented);
    }

    /** `transition(to:animated:canPopToExistingState:completion:)`, with
        the state entry at an overwritten position brought up to date. */
    method Transition(newState: S, animated: bool, canPopToExistingState: bool, completion: seq<A>)
      requires Valid()
      modifies this, nav
      ensures Snapshot() == Transitioned(old(Snapshot()), childFor, shouldPopToViewController, newState,
                                         canPopToExistingState)
      ensures trace == old(trace) + TransitionEvents(old(Snapshot()), childFor, shouldPopToViewController,
                                                     newState, animated, canPopToExistingState, completion)
      ensures Valid()
    {
      ghost var before := Snapshot();
      ghost var branch := BranchOf(before, childFor, shouldPopToViewController, newState, canPopToExistingState);
      ghost var events := TransitionEvents(before, childFor, shouldPopToViewController, newState, animated,
                                           canPopToExistingState, completion);
      ghost var after := Transitioned(before, childFor, shouldPopToViewController, newState, canPopToExistingState);
      var newChild := childFor(newState);
      var isInitiallyConfigured := nav.controllers != [];
      var containsNewChild := newChild in nav.controllers;
      var popIndex := if canPopToExistingState then PopIndex(statesInNavigationStack, shouldPopToViewController, newState)
                      else None;
      if !isInitiallyConfigured {
        assert branch == Configure;
        var full := Committing(newState, completion);
        state := newState;
        ConfigureInitialState();
        CommitBookkeeping(Book([newState], newState), 1, newState, completion);
        Run(full);
        assert after == Nav([newChild], [newState], newState);
        assert events == [SetStack([newChild]), Embed] + Performs(full);
        AppendAssoc(old(trace), [SetStack([newChild]), Embed], Performs(full));
      } else if containsNewChild {
        assert branch == PopToContained;
        PopCommitting(newChild, newState, animated, completion);
        assert after == Nav(nav.controllers, statesInNavigationStack, newState);
        assert events == [Popped(newChild, animated)] + Performs(Insert([TruncateStates], Some(Committing(newState, completion))));
      } else if popIndex.Some? {
        var i := popIndex.value;
        var existingState := statesInNavigationStack[i];
        if existingState == newState {
          assert branch == PopToEqual(i);
          var existingChild := nav.controllers[i];
          PopCommitting(existingChild, newState, animated, completion);
          assert after == Nav(nav.controllers, statesInNavigationStack, newState);
          assert events == [Popped(existingChild, animated)]
                           + Performs(Insert([TruncateStates], Some(Committing(newState, completion))));
        } else {
          assert branch == OverwriteThenPop(i);
          OverwriteThenPopCommitting(i, newChild, newState, animated, completion);
          assert after == Nav(nav.controllers, statesInNavigationStack, newState);
          assert events == [Overwrote(i, newChild), Popped(newChild, animated)]
                           + Performs(Insert([TruncateStates], Some(Committing(newState, completion))));
        }
      } else {
        assert branch.Push?;
        PushCommitting(newChild, newState, animated, completion);
        assert after == Nav(nav.controllers, statesInNavigationStack, newState);
        assert events == [Pushed(newChild, animated)]
                         + Performs(Insert([AppendState(newState)], Some(Committing(newState, completion))));
      }
    }

    /** A transition's pop: the closure built from the caller's completion
        cuts the states to the new depth and commits `newState`. */
    method PopCommitting(existingChild: C, newState: S, animated: bool, completion: seq<A>)
      requires existingChild in nav.controllers && Valid()
      modifies this, nav
      ensures Valid()
      ensures nav.controllers == PoppedTo(old(nav.controllers), existingChild)
      ensures statesInNavigationStack == Prefix(old(statesInNavigationStack), |nav.controllers|)
      ensures state == newState
      ensures trace == old(trace) + ([Popped(existingChild, animated)]
                                     + Performs(Insert([TruncateStates], Some(Committing(newState, completion)))))
    {
      var full := Committing(newState, completion);
      assert Insert([TruncateStates], Some(full)) == [TruncateStates, CommitState(newState)] + Callers(completion);
      PopBookkeeping(Book(statesInNavigationStack, state), |PoppedTo(nav.controllers, existingChild)|, newState, completion);
      Pop(existingChild, animated, full);
      AppendAssoc(old(trace), [Popped(existingChild, animated)], Performs(Insert([TruncateStates], Some(full))));
    }

    /** A transition's overwrite: the controller at `index` is replaced by
        `newChild`, its recorded state by `newState` (the correction), and
        the stack is popped back to it. */
    method OverwriteThenPopCommitting(index: nat, newChild: C, newState: S, animated: bool, completion: seq<A>)
      requires index < |nav.controllers| && Valid()
      modifies this, nav
      ensures old(nav.controllers)[index := newChild][index] == newChild
      ensures nav.controllers == PoppedTo(old(nav.controllers)[index := newChild], newChild)
      ensures statesInNavigationStack == Prefix(old(statesInNavigationStack)[index := newState], |nav.controllers|)
      ensures state == newState
      ensures trace == old(trace) + ([Overwrote(index, newChild), Popped(newChild, animated)]
                                     + Performs(Insert([TruncateStates], Some(Committing(newState, completion)))))
      ensures Valid()
    {
      nav.Overwrite(index, newChild);
      trace := trace + [Overwrote(index, newChild)];
      // the correction: keep the recorded state in step with the controller
      statesInNavigationStack := statesInNavigationStack[index := newState];
      assert nav.controllers[index] == newChild;
      PopCommitting(newChild, newState, animated, completion);
      AppendAssoc(old(trace), [Overwrote(index, newChild)],
                  [Popped(newChild, animated)] + Performs(Insert([TruncateStates], Some(Committing(newState, completion)))));
    }

    /** A transition's push: the closure records `newState` for the pushed
        controller and commits it. */
    method PushCommitting(newChild: C, newState: S, animated: bool, completion: seq<A>)
      requires newChild !in nav.controllers && Valid()
      modifies this, nav
      ensures Valid()
      ensures nav.controllers == old(nav.controllers) + [newChild]
      ensures statesInNavigationStack == old(statesInNavigationStack) + [newState]
      ensures state == newState
      ensures trace == old(trace) + ([Pushed(newChild, animated)]
                                     + Performs(Insert([AppendState(newState)], Some(Committing(newState, completion)))))
    {
      var full := Committing(newState, completion);
      assert Insert([AppendState(newState)], Some(full)) == [AppendState(newState), CommitState(newState)] + Callers(completion);
      PushBookkeeping(Book(statesInNavigationStack, state), |nav.controllers| + 1, newState, completion);
      Push(newChild, newState, animated, full);
      AppendAssoc(old(trace), [Pushed(newChild, animated)], Performs(Insert([AppendState(newState)], Some(full))));
    }

    /** The navigation controller reported its depth (after a pop by the
        user, say): the recorded states are cut to that depth. */
    method DidUpdateStackCount(stackCount: nat)
      modifies this
      ensures statesInNavigationStack == Prefix(old(statesInNavigationStack), stackCount)
      ensures state == old(state) && trace == old(trace)
      ensures stackCount == |nav.controllers| && stackCount <= old(|statesInNavigationStack|) ==> Valid()
    {
      statesInNavigationStack := Prefix(statesInNavigationStack, stackCount);
    }
  }

  /** The overwrite branch's stack: the controllers below `index`, then
      the new child. */
  lemma OverwriteThenPopShape<C>(stack: seq<C>, index: nat, c: C)
    requires index < |stack| && c !in stack
    ensures stack[index := c][index] == c
    ensures PoppedTo(stack[index := c], c) == stack[..index] + [c]
  {
    var s1 := stack[index := c];
    assert s1[index] == c;
    var j := FirstIndex(s1, c).value;
    assert s1[..index] == stack[..index];
    assert j == index;
    assert s1[..index + 1] == stack[..index] + [c];
  }

  /** On a recorded stack with one state per controller, a transition
      commits the new state and keeps one state per controller, and unless
      it pops to a controller whose recorded state equals the new one, the
      new state's child ends on top; the same holds of the code as
      written. */
  lemma {:induction false} TransitionKeepsStatesInStep<S, C>(n: Nav<S, C>, childFor: S -> C, shouldPop: (S, S) -> bool,
                                                             newState: S, canPop: bool)
    requires InStep(n)
    ensures var r := Transitioned(n, childFor, shouldPop, newState, canPop);
            InStep(r) && r.state == newState && |r.stack| > 0
            && (!BranchOf(n, childFor, shouldPop, newState, canPop).PopToEqual? ==> r.stack[|r.stack| - 1] == childFor(newState))
    ensures var r := TransitionedAsWritten(n, childFor, shouldPop, newState, canPop);
            InStep(r) && r.state == newState && |r.stack| > 0
            && (!BranchOf(n, childFor, shouldPop, newState, canPop).PopToEqual? ==> r.stack[|r.stack| - 1] == childFor(newState))
  {
    var c := childFor(newState);
    match BranchOf(n, childFor, shouldPop, newState, canPop)
    case Configure =>
    case PopToContained =>
    case PopToEqual(i) =>
    case OverwriteThenPop(i) =>
      assert n.stack[i := c][i] == c;
    case Push =>
  }

  /** Under the default predicate a pop only ever goes to a controller whose
      recorded state equals the new one: the overwrite branch is never
      taken. */
  lemma DefaultPredicateNeverOverwrites<S, C>(n: Nav<S, C>, childFor: S -> C, newState: S, canPop: bool)
    ensures !BranchOf(n, childFor, (a: S, b: S) => DefaultShouldPop(a, b), newState, canPop).OverwriteThenPop?
  {
    var p := (a: S, b: S) => DefaultShouldPop(a, b);
    var popIndex := PopIndex(n.states, p, newState);
    if canPop && popIndex.Some? {
      assert p(n.states[popIndex.value], newState);
    }
  }

  /** When every controller on the stack is the one made for its recorded
      state, a pop to an equal recorded state never happens: that state's
      controller is the new child, which the contained branch catches
      first. */
  lemma CorrespondenceRulesOutPopToEqual<S, C>(n: Nav<S, C>, childFor: S -> C, shouldPop: (S, S) -> bool,
                                                     newState: S, canPop: bool)
    requires Corresponds(n, childFor)
    ensures !BranchOf(n, childFor, shouldPop, newState, canPop).PopToEqual?
  {
    var popIndex := if canPop then PopIndex(n.states, shouldPop, newState) else None;
    if n.stack != [] && childFor(newState) !in n.stack && popIndex.Some? {
      var i := popIndex.value;
      assert n.stack[i] == childFor(n.states[i]);
      assert n.stack[i] in n.stack;
    }
  }

  /** With the recorded state brought up to date, a transition keeps every
      controller on the stack the one made for its recorded state, and the
      new state's child ends on top. */
  lemma {:induction false} TransitionKeepsCorrespondence<S, C>(n: Nav<S, C>, childFor: S -> C, shouldPop: (S, S) -> bool,
                                                               newState: S, canPop: bool)
    requires Corresponds(n, childFor)
    ensures var r := Transitioned(n, childFor, shouldPop, newState, canPop);
            Corresponds(r, childFor) && r.state == newState && r.stack[|r.stack| - 1] == childFor(newState)
  {
    var b := BranchOf(n, childFor, shouldPop, newState, canPop);
    CorrespondenceRulesOutPopToEqual(n, childFor, shouldPop, newState, canPop);
    TransitionKeepsStatesInStep(n, childFor, shouldPop, newState, canPop);
    if b.PopToContained? {
      PopKeepsCorrespondence(n, childFor, shouldPop, newState, canPop);
    } else if b.OverwriteThenPop? {
      OverwriteKeepsCorrespondence(n, childFor, shouldPop, newState, canPop);
    }
  }

  lemma PopKeepsCorrespondence<S, C>(n: Nav<S, C>, childFor: S -> C, shouldPop: (S, S) -> bool,
                                     newState: S, canPop: bool)
    requires Corresponds(n, childFor)
    requires BranchOf(n, childFor, shouldPop, newState, canPop) == PopToContained
    ensures Corresponds(Transitioned(n, childFor, shouldPop, newState, canPop), childFor)
  {
    var stack := PoppedTo(n.stack, childFor(newState));
    var k := |stack|;
    assert stack == n.stack[..k];
    assert Prefix(n.states, k) == n.states[..k];
  }

  lemma OverwriteKeepsCorrespondence<S, C>(n: Nav<S, C>, childFor: S -> C, shouldPop: (S, S) -> bool,
                                           newState: S, canPop: bool)
    requires Corresponds(n, childFor)
    requires BranchOf(n, childFor, shouldPop, newState, canPop).OverwriteThenPop?
    ensures Corresponds(Transitioned(n, childFor, shouldPop, newState, canPop), childFor)
  {
    var c := childFor(newState);
    var i := BranchOf(n, childFor, shouldPop, newState, canPop).index;
    OverwriteThenPopShape(n.stack, i, c);
    var r := Transitioned(n, childFor, shouldPop, newState, canPop);
    assert r.stack == n.stack[..i] + [c];
    assert r.states == n.states[..i] + [newState];
  }

  /** The code as written breaks that correspondence whenever it
      overwrites: the new child sits on top of a state that made another
      controller. */
  lemma AsWrittenOverwriteBreaksCorrespondence<S, C>(n: Nav<S, C>, childFor: S -> C, shouldPop: (S, S) -> bool,
                                                     newState: S, canPop: bool)
    requires Corresponds(n, childFor)
    requires BranchOf(n, childFor, shouldPop, newState, canPop).OverwriteThenPop?
    ensures var r := TransitionedAsWritten(n, childFor, shouldPop, newState, canPop);
            InStep(r) && r.stack[|r.stack| - 1] == childFor(newState)
            && r.stack[|r.stack| - 1] != childFor(r.states[|r.states| - 1])
            && !Corresponds(r, childFor)
  {
    var c := childFor(newState);
    var i := BranchOf(n, childFor, shouldPop, newState, canPop).index;
    var r := TransitionedAsWritten(n, childFor, shouldPop, newState, canPop);
    OverwriteThenPopShape(n.stack, i, c);
    assert r.stack == n.stack[..i] + [c];
    assert r.states == n.states[..i + 1];
    assert n.stack[i] == childFor(n.states[i]) && n.stack[i] in n.stack;
  }

  // A worked example: states are `int`s, the child of `s` is `s + 10`, and
  // the predicate pops to a state of the same parity.

  function ChildOfInt(s: int): int { s + 10 }

  function SameParity(a: int, b: int): bool { a % 2 == b % 2 }

  /** From the stack for `[0, 1]`, going to 3 overwrites the top with the
      child of 3; only the corrected transition records 3 for it. */
  lemma StaleExampleFirstStep()
    ensures BranchOf(Nav([10, 11], [0, 1], 1), ChildOfInt, SameParity, 3, true) == OverwriteThenPop(1)
    ensures TransitionedAsWritten(Nav([10, 11], [0, 1], 1), ChildOfInt, SameParity, 3, true) == Nav([10, 13], [0, 1], 3)
    ensures Transitioned(Nav([10, 11], [0, 1], 1), ChildOfInt, SameParity, 3, true) == Nav([10, 13], [0, 3], 3)
  {
    var n0 := Nav([10, 11], [0, 1], 1);
    assert SameParity(n0.states[1], 3);
    assert PopIndex(n0.states, SameParity, 3) == Some(1);
    assert 13 !in n0.stack;
    OverwriteThenPopShape(n0.stack, 1, 13);
    assert n0.stack[..1] + [13] == [10, 13];
  }

  /** Going back to 1 as written: 1 is still recorded on top, so the
      stack is popped to the controller there, the child of 3. */
  lemma StaleExampleSecondStepAsWritten()
    ensures BranchOf(Nav([10, 13], [0, 1], 3), ChildOfInt, SameParity, 1, true) == PopToEqual(1)
    ensures TransitionedAsWritten(Nav([10, 13], [0, 1], 3), ChildOfInt, SameParity, 1, true) == Nav([10, 13], [0, 1], 1)
  {
    var w1 := Nav([10, 13], [0, 1], 3);
    assert SameParity(w1.states[1], 1);
    assert PopIndex(w1.states, SameParity, 1) == Some(1);
    assert 11 !in w1.stack;
    assert FirstIndex(w1.stack, 13) == Some(1) by { assert w1.stack[0] != 13; }
  }

  /** Going back to 1, corrected: 3 is recorded on top, so the child of 1
      is put back in its place. */
  lemma StaleExampleSecondStepCorrected()
    ensures BranchOf(Nav([10, 13], [0, 3], 3), ChildOfInt, SameParity, 1, true) == OverwriteThenPop(1)
    ensures Transitioned(Nav([10, 13], [0, 3], 3), ChildOfInt, SameParity, 1, true) == Nav([10, 11], [0, 1], 1)
  {
    var c1 := Nav([10, 13], [0, 3], 3);
    assert SameParity(c1.states[1], 1);
    assert PopIndex(c1.states, SameParity, 1) == Some(1);
    assert 11 !in c1.stack;
    OverwriteThenPopShape(c1.stack, 1, 11);
    assert c1.stack[..1] + [11] == [10, 11];
  }

  /** Together: as written, the two transitions leave the child of 3 on
      top in state 1; corrected, they return to the stack for `[0, 1]`. */
  lemma StaleEntryShowsWrongChild()
    ensures var n0 := Nav([10, 11], [0, 1], 1);
            var w2 := TransitionedAsWritten(TransitionedAsWritten(n0, ChildOfInt, SameParity, 3, true),
                                            ChildOfInt, SameParity, 1, true);
            var c2 := Transitioned(Transitioned(n0, ChildOfInt, SameParity, 3, true),
                                   ChildOfInt, SameParity, 1, true);
            w2.state == 1 && w2.stack[|w2.stack| - 1] == 13 && w2.stack[|w2.stack| - 1] != ChildOfInt(w2.state)
            && c2 == n0
  {
    StaleExampleFirstStep();
    StaleExampleSecondStepAsWritten();
    StaleExampleSecondStepCorrected();
  }

  /** A controller already on the stack is popped to whether or not the
      caller allows popping to an existing state. */
  lemma ContainedChildIsPoppedTo<S, C>(n: Nav<S, C>, childFor: S -> C, shouldPop: (S, S) -> bool, newState: S)
    requires InStep(n) && n.stack != [] && childFor(newState) in n.stack
    ensures Transitioned(n, childFor, shouldPop, newState, true) == Transitioned(n, childFor, shouldPop, newState, false)
    ensures Transitioned(n, childFor, shouldPop, newState, true).stack == PoppedTo(n.stack, childFor(newState))
  {
  }

  /** Going to a state whose child is new, without popping to existing
      states, and then back, returns to the one-controller stack. */
  lemma ReturningPopsBack<S, C>(childFor: S -> C, shouldPop: (S, S) -> bool, a: S, b: S)
    requires childFor(a) != childFor(b)
    ensures var n0 := Nav([childFor(a)], [a], a);
            var n1 := Transitioned(n0, childFor, shouldPop, b, false);
            n1 == Nav([childFor(a), childFor(b)], [a, b], b)
            && Transitioned(n1, childFor, shouldPop, a, false) == n0
  {
    var n1 := Nav([childFor(a), childFor(b)], [a, b], b);
    assert Transitioned(Nav([childFor(a)], [a], a), childFor, shouldPop, b, false) == n1;
    assert childFor(a) in n1.stack;
    assert FirstIndex(n1.stack, childFor(a)) == Some(0) by {
      assert n1.stack[0] == childFor(a);
    }
  }

  /** A record ends with the commit of `newState`, followed by the whole
      of the caller's completion. */
  ghost predicate CommitsThenCompletes<S, C, A>(e: seq<NavEvent<C, Action<S, A>>>, newState: S, completion: seq<A>)
  {
    var k := |e| - |completion|;
    k >= 1 && e[k - 1] == Performed(CommitState(newState)) && e[k..] == Performs(Callers(completion))
  }

  /** A record whose commit comes right after the bookkeeping action
      `book`. */
  ghost predicate BooksThenCommits<S, C, A>(e: seq<NavEvent<C, Action<S, A>>>, book: Action<S, A>, completion: seq<A>)
  {
    var k := |e| - |completion|;
    k >= 2 && e[k - 2] == Performed(book)
  }

  /** A record that ends by invoking a committing closure ends with the
      commit and then the caller's completion. */
  lemma EndsCommittingThenCompleting<S, C, A>(before: seq<NavEvent<C, Action<S, A>>>, newState: S, completion: seq<A>)
    ensures CommitsThenCompletes(before + Performs<C, Action<S, A>>(Committing(newState, completion)), newState, completion)
  {
    var e := before + Performs<C, Action<S, A>>(Committing(newState, completion));
    var k := |e| - |completion|;
    assert Committing(newState, completion) == [CommitState(newState)] + Callers(completion);
    assert e[k - 1] == Performed(CommitState(newState));
    assert e[k..] == Performs(Callers(completion));
  }

  /** The same, when the committing closure has had one more action
      inserted before it. */
  lemma InsertedCommittingThenCompleting<S, C, A>(before: seq<NavEvent<C, Action<S, A>>>, first: Action<S, A>,
                                                 newState: S, completion: seq<A>)
    ensures CommitsThenCompletes(before + Performs<C, Action<S, A>>(Insert([first], Some(Committing(newState, completion)))),
                                 newState, completion)
    ensures BooksThenCommits(before + Performs<C, Action<S, A>>(Insert([first], Some(Committing(newState, completion)))),
                             first, completion)
  {
    var full := Committing(newState, completion);
    PerformsAppend<C, Action<S, A>>([first], full);
    AppendAssoc(before, Performs<C, Action<S, A>>([first]), Performs(full));
    EndsCommittingThenCompleting(before + Performs<C, Action<S, A>>([first]), newState, completion);
    var e := before + Performs<C, Action<S, A>>([first]) + Performs(full);
    assert |Performs<C, Action<S, A>>(full)| == |completion| + 1;
    assert e[|before|] == Performed(first);
  }

  /** Every transition's closure commits the new state, and the caller's
      completion runs afterwards, entirely and last; except on the first
      configuration, the commit comes right after the stack bookkeeping:
      the truncation of the recorded states after a pop, the appended state
      after a push. */
  lemma TransitionCommitsThenCompletes<S, C, A>(n: Nav<S, C>, childFor: S -> C, shouldPop: (S, S) -> bool,
                                                newState: S, animated: bool, canPop: bool, completion: seq<A>)
    requires InStep(n)
    ensures CommitsThenCompletes(TransitionEvents(n, childFor, shouldPop, newState, animated, canPop, completion),
                                 newState, completion)
    ensures var branch := BranchOf(n, childFor, shouldPop, newState, canPop);
            !branch.Configure? ==>
              BooksThenCommits(TransitionEvents(n, childFor, shouldPop, newState, animated, canPop, completion),
                               if branch.Push? then AppendState(newState) else TruncateStates, completion)
  {
    var c := childFor(newState);
    match BranchOf(n, childFor, shouldPop, newState, canPop)
    case Configure =>
      EndsCommittingThenCompleting<S, C, A>([SetStack([c]), Embed], newState, completion);
    case PopToContained =>
      InsertedCommittingThenCompleting<S, C, A>([Popped(c, animated)], TruncateStates, newState, completion);
    case PopToEqual(i) =>
      InsertedCommittingThenCompleting<S, C, A>([Popped(n.stack[i], animated)], TruncateStates, newState, completion);
    case OverwriteThenPop(i) =>
      InsertedCommittingThenCompleting<S, C, A>([Overwrote(i, c), Popped(c, animated)], TruncateStates, newState, completion);
    case Push =>
      InsertedCommittingThenCompleting<S, C, A>([Pushed(c, animated)], AppendState(newState), newState, completion);
  }
}
