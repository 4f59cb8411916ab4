// Source/Public/StatefulViewController.swift: the protocol-based ancestor
// of the single-slot engine, whose default implementations drive the
// `StateTransitionBehavior` variant of `replaceChild`.
//
// A conforming controller is modelled as a class holding the protocol's
// `state` and `currentChild` and its two requirements as function fields.
// `assertionFailure` is modelled as in a release build (the call returns);
// `preconditionFailure` stops the program in every build.

module EarlySlot {
  import opened Wrappers
  import opened Sequences
  import opened Animation
  import opened Containment
  import opened ContainmentProperties
  import opened LegacyContainment
  import opened SlotActions

  /** The default `transitionBehavior(from:to:)`: add the new child first,
      without any animation, whatever the states. */
  function DefaultTransitionBehavior<S>(oldState: S, newState: S): (r: TransitionBehavior)
    ensures r.order == AddNewChildFirst
    ensures r.additionAnimations.None? && r.removalAnimations.None?
  {
    TransitionBehavior(AddNewChildFirst, None, None)
  }

  class StatefulViewController<S(==), C(==), A> {
    const host: Parent<C, Action<S, C, A>>
    const childFor: S -> C
    const transitionBehavior: (S, S) -> TransitionBehavior
    var state: S
    var currentChild: Option<C>

    constructor (initialState: S, childFor: S -> C, transitionBehavior: (S, S) -> TransitionBehavior)
      ensures state == initialState && currentChild == None
      ensures this.childFor == childFor && this.transitionBehavior == transitionBehavior
      ensures fresh(host)
      ensures host.children == [] && host.subviews == [] && host.hidden == {} && host.trace == []
    {
      state := initialState;
      currentChild := None;
      this.childFor := childFor;
      this.transitionBehavior := transitionBehavior;
      host := new Parent();
    }

    predicate Valid()
      reads this, host
    {
      currentChild.Some? ==> currentChild.value in host.children
    }

    /** `configureInitialState()`: adds the state's child and makes it the
        current child, on every call. */
    method ConfigureInitialState()
      modifies this, host
      ensures state == old(state) && currentChild == Some(childFor(state))
      ensures host.children == Added(old(host.children), childFor(state))
      ensures host.subviews == Added(old(host.subviews), childFor(state))
      ensures host.hidden == old(host.hidden)
      ensures host.trace == old(host.trace) + AddSteps(childFor(state), None)
      ensures Valid()
    {
      var initialChild := childFor(state);
      currentChild := Some(initialChild);
      host.AddChild(initialChild, None, []);
      assert Runs<C, Action<S, C, A>>([]) == [];
      InAdded(old(host.children), initialChild, initialChild);
    }

    /** `transition(to:completion:)`. */
    method Transition(newState: S, addEndsFirst: bool, completion: seq<A>) returns (outcome: Outcome)
      requires Valid()
      modifies this, host
      // the same state (an assertion): nothing happens, not even the completion
      ensures newState == old(state) ==>
                outcome == Finished
                && state == old(state) && currentChild == old(currentChild)
                && host.children == old(host.children) && host.subviews == old(host.subviews)
                && host.hidden == old(host.hidden) && host.trace == old(host.trace)
      // no current child: a precondition failure
      ensures newState != old(state) && old(currentChild).None? ==>
                outcome == Fatal
                && state == old(state) && currentChild == None
                && host.children == old(host.children) && host.subviews == old(host.subviews)
                && host.hidden == old(host.hidden) && host.trace == old(host.trace)
      // otherwise: replace as the behaviour says, and commit in the continuation
      ensures newState != old(state) && old(currentChild).Some? ==>
                var c := childFor(newState);
                var behavior := transitionBehavior(old(state), newState);
                outcome == Finished
                && state == newState && currentChild == Some(c)
                && host.children == LegacyReplaced(old(host.children), old(currentChild).value, c, behavior)
                && host.subviews == LegacyReplaced(old(host.subviews), old(currentChild).value, c, behavior)
                && host.hidden == old(host.hidden)
                && host.trace == old(host.trace)
                   + LegacyReplaceSteps(old(currentChild).value, c, behavior, addEndsFirst, Continuation(newState, c, completion))
      // the engine stays valid unless its child is replaced by itself under
      // an order that adds before it removes
      ensures Valid() <==> !(newState != old(state) && old(currentChild) == Some(childFor(newState))
                             && transitionBehavior(old(state), newState).order != RemoveExistingChildFirst)
    {
      if newState == state {
        return Finished;
      }
      if currentChild.None? {
        return Fatal;
      }
      var oldChild := currentChild.value;
      var newChild := childFor(newState);
      var behavior := transitionBehavior(state, newState);
      ReplaceChild(host, oldChild, newChild, behavior, addEndsFirst, Continuation(newState, newChild, completion));
      state := newState;
      currentChild := Some(newChild);
      LegacyReplacedOutcome(old(host.children), oldChild, newChild, behavior);
      return Finished;
    }
  }

  /** In a transition that replaces the child, whatever the behaviour,
      `state` and `currentChild` are committed exactly once each, after
      every structural step, and then the caller's completion runs once. */
  lemma EarlyTransitionCommitsOnce<S, C, A>(oldChild: C, newChild: C, behavior: TransitionBehavior,
                                            addEndsFirst: bool, newState: S, completion: seq<A>, a: A)
    ensures var t := LegacyReplaceSteps(oldChild, newChild, behavior, addEndsFirst, Continuation(newState, newChild, completion));
            var w := |LegacyReplaceWork<C, Action<S, C, A>>(oldChild, newChild, behavior, addEndsFirst)|;
            && (forall i :: 0 <= i < w ==> !t[i].Ran?)
            && t[w] == Ran(CommitState(newState)) && t[w + 1] == Ran(CommitChild(newChild))
            && (forall i :: w + 2 <= i < |t| ==> t[i] == Ran(Caller(completion[i - w - 2])))
            && Count(t, Ran(CommitState(newState))) == 1
            && Count(t, Ran(CommitChild(newChild))) == 1
            && Count(t, Ran(Caller(a))) == Count(completion, a)
  {
    LegacyWorkRunsNothing<C, Action<S, C, A>>(oldChild, newChild, behavior, addEndsFirst);
    CommitsOnceThenCallers(LegacyReplaceWork<C, Action<S, C, A>>(oldChild, newChild, behavior, addEndsFirst),
                           newState, newChild, completion, a);
  }

  /** Under the default behaviour a transition adds the new child with no
      animation and then removes the old one with none: the steps are those
      of the current engine's unanimated `appearOverPrevious`. */
  lemma DefaultBehaviorAddsThenRemoves<S, C, X>(oldChild: C, newChild: C, oldState: S, newState: S,
                                                addEndsFirst: bool, completion: seq<X>)
    ensures LegacyReplaceSteps(oldChild, newChild, DefaultTransitionBehavior(oldState, newState), addEndsFirst, completion)
            == AddSteps(newChild, None) + RemoveSteps(oldChild, None) + Runs(completion)
    ensures LegacyReplaceSteps(oldChild, newChild, DefaultTransitionBehavior(oldState, newState), addEndsFirst, completion)
            == ReplaceSteps(oldChild, newChild, Some(AppearOverPrevious(None)), addEndsFirst, completion)
  {
    LegacyMatchesCurrent<C, X>([], oldChild, newChild, None, None, addEndsFirst);
  }
}
