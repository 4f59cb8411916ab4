// Source/Public/StatefulNavigationController.swift: the oldest navigation
// engine. It records no states for the stack; a `PopTransitionRule` decides
// whether it may pop back to an existing, "equal" controller.
//
// Its superclass (a `StatefulViewController<State>` class providing
// `ignoresSameStateChanges`) is not part of this model: that flag is a
// constant of the engine. Closures run through `CATransaction` after the
// navigation controller's own work; they are recorded in that order.

module EarlyStack {
  import opened Wrappers
  import opened Sequences
  import opened UIKitStacks
  import opened NavigationBookkeeping

  /** `PopTransitionRule`: `yes(equality)` or `no`. */
  type PopTransitionRule<!C> = Option<(C, C) -> bool>

  /** The default rule, `.no`. */
  function DefaultRule<C>(): (r: PopTransitionRule<C>)
    ensures r.None?
  {
    None
  }

  /** The engine's observable state: the navigation stack and `state`. */
  datatype EarlyNav<S, C> = EarlyNav(stack: seq<C>, state: S)

  /** What `transition(to:animated:completion:)` decides to do. */
  datatype Move = Ignore | PopToExisting(index: nat) | PushNew

  /** `existingChild(for:equality:)`: the first, bottom-most controller the
      equality accepts for the new child. */
  function ExistingChild<C>(stack: seq<C>, equality: (C, C) -> bool, newChild: C): (r: Option<nat>)
    ensures r.None? <==> forall i :: 0 <= i < |stack| ==> !equality(stack[i], newChild)
    ensures r.Some? ==> r.value < |stack| && equality(stack[r.value], newChild)
    ensures r.Some? ==> forall j :: 0 <= j < r.value ==> !equality(stack[j], newChild)
  {
    FirstIndexWhere(stack, x => equality(x, newChild))
  }

  function MoveOf<S(==), C>(n: EarlyNav<S, C>, childFor: S -> C, ignoresSameStateChanges: bool,
                            rule: PopTransitionRule<C>, newState: S): (r: Move)
    ensures r.PopToExisting? ==> r.index < |n.stack|
  {
    if ignoresSameStateChanges && newState == n.state then Ignore
    else match rule
      case None => PushNew
      case Some(equality) =>
        match ExistingChild(n.stack, equality, childFor(newState))
        case Some(j) => PopToExisting(j)
        case None => PushNew
  }

  /** `newCompletion`: the caller's completion, then `state = newState`. */
  function NewCompletion<S, A>(newState: S, completion: seq<A>): seq<Action<S, A>>
  {
    Callers(completion) + [CommitState(newState)]
  }

  /** What a transition leaves behind; `None` when it pushes a controller
      that is already on the stack, which UIKit refuses with an exception. */
  function Transitioned<S(==), C(==)>(n: EarlyNav<S, C>, childFor: S -> C, ignoresSameStateChanges: bool,
                                      rule: PopTransitionRule<C>, newState: S): Option<EarlyNav<S, C>>
  {
    var c := childFor(newState);
    match MoveOf(n, childFor, ignoresSameStateChanges, rule, newState)
    case Ignore => Some(n)
    case PopToExisting(j) => Some(EarlyNav(PoppedTo(n.stack, n.stack[j]), newState))
    case PushNew => if c in n.stack then None else Some(EarlyNav(n.stack + [c], newState))
  }

  /** The calls a transition makes and the closure actions it runs. */
  function TransitionEvents<S(==), C(==), A>(n: EarlyNav<S, C>, childFor: S -> C, ignoresSameStateChanges: bool,
                                             rule: PopTransitionRule<C>, newState: S, animated: bool,
                                             completion: seq<A>): seq<NavEvent<C, Action<S, A>>>
  {
    var c := childFor(newState);
    match MoveOf(n, childFor, ignoresSameStateChanges, rule, newState)
    case Ignore => []
    case PopToExisting(j) => [Popped(n.stack[j], animated)] + Performs(NewCompletion(newState, completion))
    case PushNew => if c in n.stack then [] else [Pushed(c, animated)] + Performs(NewCompletion(newState, completion))
  }

  class StatefulNavigationController<S(==), C(==), A> {
    const nav: NavigationStack<C>
    const childFor: S -> C
    const ignoresSameStateChanges: bool
    var canPopToPreviousControllerOnTransition: PopTransitionRule<C>
    var state: S
    var trace: seq<NavEvent<C, Action<S, A>>>

    /** A new engine: an empty navigation controller and the default rule. */
    constructor (initialState: S, childFor: S -> C, ignoresSameStateChanges: bool)
      ensures state == initialState && trace == [] && canPopToPreviousControllerOnTransition == DefaultRule()
      ensures this.childFor == childFor && this.ignoresSameStateChanges == ignoresSameStateChanges
      ensures fresh(nav) && nav.controllers == []
    {
      state := initialState;
      trace := [];
      canPopToPreviousControllerOnTransition := None;
      this.childFor := childFor;
      this.ignoresSameStateChanges := ignoresSameStateChanges;
      nav := new NavigationStack();
    }

    function Snapshot(): EarlyNav<S, C>
      reads this, nav
    {
      EarlyNav(nav.controllers, state)
    }

    /** `configureInitialState()`. */
    method ConfigureInitialState()
      modifies this, nav
      ensures nav.controllers == [childFor(old(state))] && state == old(state)
      ensures canPopToPreviousControllerOnTransition == old(canPopToPreviousControllerOnTransition)
      ensures trace == old(trace) + [SetStack([childFor(old(state))]), Embed]
    {
      var initialChild := childFor(state);
      nav.SetViewControllers([initialChild]);
      trace := trace + [SetStack([initialChild]), Embed];
    }

    /** Invoking a closure: only `state` can change. */
    method Run(actions: seq<Action<S, A>>)
      modifies this
      ensures state == ApplyAll(Book([], old(state)), |nav.controllers|, actions).state
      ensures canPopToPreviousControllerOnTransition == old(canPopToPreviousControllerOnTransition)
      ensures trace == old(trace) + Performs(actions)
    {
      state := ApplyAll(Book([], state), |nav.controllers|, actions).state;
      trace := trace + Performs(actions);
    }

    /** `transition(to:animated:completion:)`. */
    method Transition(newState: S, animated: bool, completion: seq<A>) returns (outcome: Outcome)
      modifies this, nav
      ensures outcome == Fatal <==>
              Transitioned(old(Snapshot()), childFor, ignoresSameStateChanges,
                           old(canPopToPreviousControllerOnTransition), newState).None?
      ensures outcome == Fatal ==> Snapshot() == old(Snapshot()) && trace == old(trace)
      ensures outcome == Finished ==>
                Some(Snapshot()) == Transitioned(old(Snapshot()), childFor, ignoresSameStateChanges,
                                                 old(canPopToPreviousControllerOnTransition), newState)
      ensures trace == old(trace) + TransitionEvents(old(Snapshot()), childFor, ignoresSameStateChanges,
                                                     old(canPopToPreviousControllerOnTransition), newState,
                                                     animated, completion)
      ensures canPopToPreviousControllerOnTransition == old(canPopToPreviousControllerOnTransition)
    {
      ghost var before := Snapshot();
      ghost var move := MoveOf(before, childFor, ignoresSameStateChanges, canPopToPreviousControllerOnTransition, newState);
      if ignoresSameStateChanges && newState == state {
        return Finished;
      }
      var newCompletion := NewCompletion(newState, completion);
      var newChild := childFor(newState);
      match canPopToPreviousControllerOnTransition {
        case Some(equality) =>
          var existing := ExistingChild(nav.controllers, equality, newChild);
          if existing.Some? {
            assert move == PopToExisting(existing.value);
            Pop(nav.controllers[existing.value], animated, newState, completion);
            outcome := Finished;
          } else {
            outcome := Push(newChild, animated, newState, completion);
          }
        case None =>
          outcome := Push(newChild, animated, newState, completion);
      }
    }

    /** `pop(to:animated:completion:)` with `newCompletion`. */
    method Pop(existingChild: C, animated: bool, newState: S, completion: seq<A>)
      requires existingChild in nav.controllers
      modifies this, nav
      ensures nav.controllers == PoppedTo(old(nav.controllers), existingChild) && state == newState
      ensures canPopToPreviousControllerOnTransition == old(canPopToPreviousControllerOnTransition)
      ensures trace == old(trace) + ([Popped(existingChild, animated)] + Performs(NewCompletion(newState, completion)))
    {
      nav.PopTo(existingChild);
      trace := trace + [Popped(existingChild, animated)];
      Run(NewCompletion(newState, completion));
      CommitsLast(Book([], old(state)), |nav.controllers|, newState, completion);
      AppendAssoc(old(trace), [Popped(existingChild, animated)], Performs(NewCompletion(newState, completion)));
    }

    /** `push(_:animated:completion:)` with `newCompletion`; pushing a
        controller already on the stack is fatal. */
    method Push(newChild: C, animated: bool, newState: S, completion: seq<A>) returns (outcome: Outcome)
      modifies this, nav
      ensures outcome == Fatal <==> newChild in old(nav.controllers)
      ensures outcome == Fatal ==>
                nav.controllers == old(nav.controllers) && state == old(state) && trace == old(trace)
      ensures outcome == Finished ==> nav.controllers == old(nav.controllers) + [newChild] && state == newState
      ensures outcome == Finished ==>
                trace == old(trace) + ([Pushed(newChild, animated)] + Performs(NewCompletion(newState, completion)))
      ensures canPopToPreviousControllerOnTransition == old(canPopToPreviousControllerOnTransition)
    {
      outcome := nav.Push(newChild);
      if outcome == Fatal {
        return;
      }
      trace := trace + [Pushed(newChild, animated)];
      Run(NewCompletion(newState, completion));
      CommitsLast(Book([], old(state)), |nav.controllers|, newState, completion);
      AppendAssoc(old(trace), [Pushed(newChild, animated)], Performs(NewCompletion(newState, completion)));
    }
  }

  /** `newCompletion` leaves the new state committed, whatever the caller's
      completion is. */
  lemma CommitsLast<S, A>(b: Book<S>, depth: nat, newState: S, completion: seq<A>)
    ensures ApplyAll(b, depth, NewCompletion(newState, completion)) == b.(state := newState)
  {
    var last: seq<Action<S, A>> := [CommitState(newState)];
    ApplyAllAppend(b, depth, Callers(completion), last);
    CallersKeepTheBook(b, depth, completion);
    assert last[1..] == [];
  }

  /** Unlike the later revisions, this one runs the caller's completion
      before it commits the state: the commit is the very last action, and
      the caller's completion has run in full just before it. */
  lemma CompletionRunsBeforeCommit<S, C, A>(n: EarlyNav<S, C>, childFor: S -> C, ignoresSameStateChanges: bool,
                                            rule: PopTransitionRule<C>, newState: S, animated: bool,
                                            completion: seq<A>)
    requires Transitioned(n, childFor, ignoresSameStateChanges, rule, newState).Some?
    requires !MoveOf(n, childFor, ignoresSameStateChanges, rule, newState).Ignore?
    ensures var e := TransitionEvents(n, childFor, ignoresSameStateChanges, rule, newState, animated, completion);
            |e| == |completion| + 2
            && e[|e| - 1] == Performed(CommitState(newState))
            && e[1..|e| - 1] == Performs(Callers(completion))
  {
    var e := TransitionEvents(n, childFor, ignoresSameStateChanges, rule, newState, animated, completion);
    var closure := NewCompletion(newState, completion);
    assert e[1..] == Performs(closure);
    assert closure[|closure| - 1] == CommitState(newState);
    assert closure[..|closure| - 1] == Callers(completion);
    assert e[1..|e| - 1] == Performs<C, Action<S, A>>(closure)[..|closure| - 1];
  }

  /** Under the default rule every transition that is not ignored pushes. */
  lemma DefaultRuleAlwaysPushes<S, C>(n: EarlyNav<S, C>, childFor: S -> C, ignoresSameStateChanges: bool, newState: S)
    requires !(ignoresSameStateChanges && newState == n.state)
    ensures MoveOf(n, childFor, ignoresSameStateChanges, DefaultRule(), newState) == PushNew
    ensures childFor(newState) !in n.stack ==>
              Transitioned(n, childFor, ignoresSameStateChanges, DefaultRule(), newState)
              == Some(EarlyNav(n.stack + [childFor(newState)], newState))
  {
  }

  /** Under `yes(equality)` the engine pops exactly when some controller
      on the stack is equal to the new child, and then to the bottom-most
      such controller. */
  lemma PopsToFirstEqual<S, C>(n: EarlyNav<S, C>, childFor: S -> C, ignoresSameStateChanges: bool,
                               equality: (C, C) -> bool, newState: S)
    requires !(ignoresSameStateChanges && newState == n.state)
    ensures var m := MoveOf(n, childFor, ignoresSameStateChanges, Some(equality), newState);
            (m.PopToExisting? <==> exists i :: 0 <= i < |n.stack| && equality(n.stack[i], childFor(newState)))
            && (m.PopToExisting? ==> equality(n.stack[m.index], childFor(newState))
                                     && forall j :: 0 <= j < m.index ==> !equality(n.stack[j], childFor(newState)))
  {
    var m := MoveOf(n, childFor, ignoresSameStateChanges, Some(equality), newState);
    if m.PopToExisting? {
      assert equality(n.stack[m.index], childFor(newState));
    }
  }

  /** An ignored transition changes nothing and runs no closure, not even
      the caller's completion. */
  lemma IgnoredTransitionDoesNothing<S, C, A>(n: EarlyNav<S, C>, childFor: S -> C, rule: PopTransitionRule<C>,
                                              animated: bool, completion: seq<A>)
    ensures Transitioned(n, childFor, true, rule, n.state) == Some(n)
    ensures TransitionEvents(n, childFor, true, rule, n.state, animated, completion) == []
  {
  }

  /** A transition keeps the stack free of repeats, as UIKit requires, and
      commits the new state. */
  lemma TransitionKeepsStackDistinct<S, C>(n: EarlyNav<S, C>, childFor: S -> C, ignoresSameStateChanges: bool,
                                           rule: PopTransitionRule<C>, newState: S)
    requires Distinct(n.stack)
    requires Transitioned(n, childFor, ignoresSameStateChanges, rule, newState).Some?
    ensures var r := Transitioned(n, childFor, ignoresSameStateChanges, rule, newState).value;
            Distinct(r.stack)
            && (!MoveOf(n, childFor, ignoresSameStateChanges, rule, newState).Ignore? ==> r.state == newState)
  {
    var c := childFor(newState);
    match MoveOf(n, childFor, ignoresSameStateChanges, rule, newState)
    case Ignore =>
    case PopToExisting(j) =>
      PoppedToPosition(n.stack, j);
    case PushNew =>
      var s := n.stack + [c];
      forall i, k | 0 <= i < k < |s|
        ensures s[i] != s[k]
      {
        if k == |n.stack| {
          assert s[i] in n.stack;
        }
      }
  }

  /** The equality `yes(===)`: the very same controller. */
  function Identical<C(==)>(x: C, y: C): bool { x == y }

  /** With identity as the equality, going to a state with a new child and
      then back pops back to the one-controller stack. */
  lemma ReturningPopsBack<S, C>(childFor: S -> C, a: S, b: S)
    requires childFor(a) != childFor(b)
    ensures var same := Identical<C>;
            var n0 := EarlyNav([childFor(a)], a);
            var n1 := Transitioned(n0, childFor, true, Some(same), b);
            n1 == Some(EarlyNav([childFor(a), childFor(b)], b))
            && Transitioned(n1.value, childFor, true, Some(same), a) == Some(n0)
  {
    var same := Identical<C>;
    var n0 := EarlyNav([childFor(a)], a);
    var n1 := EarlyNav([childFor(a), childFor(b)], b);
    assert !same(n0.stack[0], childFor(b));
    assert ExistingChild(n0.stack, same, childFor(b)).None?;
    assert MoveOf(n0, childFor, true, Some(same), b) == PushNew;
    assert childFor(b) !in n0.stack && n0.stack + [childFor(b)] == n1.stack;
    assert Transitioned(n0, childFor, true, Some(same), b) == Some(n1);
    assert ExistingChild(n1.stack, same, childFor(a)) == Some(0) by {
      assert same(n1.stack[0], childFor(a));
    }
    assert MoveOf(n1, childFor, true, Some(same), a) == PopToExisting(0);
    assert PoppedTo(n1.stack, childFor(a)) == [childFor(a)] by {
      assert FirstIndex(n1.stack, childFor(a)) == Some(0);
    }
  }
}
