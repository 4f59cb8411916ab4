// Source/Public/Containers/StatefulViewController.swift: a view controller
// that shows one child at a time, chosen by its state.
//
// The engine is the parent controller `host`; the subclass's
// `childViewController(for:)` and `transitionAnimation(from:to:)` are the
// function fields `childFor` and `transitionAnimation`. The closure handed
// to `replaceChild` is recorded by its actions; the fields it assigns are
// assigned as soon as `replaceChild` returns, that is, right after the
// recorded actions.

module CurrentSlot {
  import opened Wrappers
  import opened Sequences
  import opened Animation
  import opened Containment
  import opened ContainmentProperties
  import opened SlotActions

  class StatefulViewController<S(==), C(==), A> {
    const host: Parent<C, Action<S, C, A>>
    const childFor: S -> C
    const transitionAnimation: (S, S) -> Option<StateTransitionAnimation>
    var state: S
    var currentChild: Option<C>

    /** `init(initialState:)`: no child yet. */
    constructor (initialState: S, childFor: S -> C, transitionAnimation: (S, S) -> Option<StateTransitionAnimation>)
      ensures state == initialState && currentChild == None
      ensures this.childFor == childFor && this.transitionAnimation == transitionAnimation
      ensures fresh(host)
      ensures host.children == [] && host.subviews == [] && host.hidden == {} && host.trace == []
    {
      state := initialState;
      currentChild := None;
      this.childFor := childFor;
      this.transitionAnimation := transitionAnimation;
      host := new Parent();
    }

    /** The current child, once there is one, is a child of the engine. */
    predicate Valid()
      reads this, host
    {
      currentChild.Some? ==> currentChild.value in host.children
    }

    /** `configureInitialState()`: the first call adds the state's child
        and records it as the current child; later calls change nothing. */
    method ConfigureInitialState()
      modifies this, host
      ensures state == old(state)
      ensures old(currentChild).Some? ==>
                currentChild == old(currentChild)
                && host.children == old(host.children) && host.subviews == old(host.subviews)
                && host.hidden == old(host.hidden) && host.trace == old(host.trace)
      ensures old(currentChild).None? ==>
                var c := childFor(state);
                currentChild == Some(c)
                && host.children == Added(old(host.children), c) && host.subviews == Added(old(host.subviews), c)
                && host.hidden == old(host.hidden)
                && host.trace == old(host.trace) + AddSteps(c, None)
      ensures old(Valid()) ==> Valid()
      ensures old(currentChild).None? ==> Valid()
    {
      if currentChild.Some? {
        return;
      }
      var initialChild := childFor(state);
      currentChild := Some(initialChild);
      host.AddChild(initialChild, None, []);
      assert Runs<C, Action<S, C, A>>([]) == [];
      InAdded(old(host.children), initialChild, initialChild);
    }

    /** `transition(to:animated:completion:)`. */
    method Transition(newState: S, animated: bool, addEndsFirst: bool, completion: seq<A>)
      requires Valid()
      modifies this, host
      // the same state: only the completion runs
      ensures newState == old(state) ==>
                state == old(state) && currentChild == old(currentChild)
                && host.children == old(host.children) && host.subviews == old(host.subviews)
                && host.hidden == old(host.hidden)
                && host.trace == old(host.trace) + Runs(Callers(completion))
      // not configured yet: take the new state as the initial one
      ensures newState != old(state) && old(currentChild).None? ==>
                var c := childFor(newState);
                state == newState && currentChild == Some(c)
                && host.children == Added(old(host.children), c) && host.subviews == Added(old(host.subviews), c)
                && host.hidden == old(host.hidden)
                && host.trace == old(host.trace) + AddSteps(c, None) + Runs(Callers(completion))
      // otherwise: replace, and commit inside the continuation
      ensures newState != old(state) && old(currentChild).Some? ==>
                var c := childFor(newState);
                var animation := AnimationFor(transitionAnimation, animated, old(state), newState);
                state == newState && currentChild == Some(c)
                && host.children == ReplacedChildren(old(host.children), old(currentChild).value, c, animation)
                && host.subviews == ReplacedSubviews(old(host.subviews), old(currentChild).value, c, animation)
                && host.hidden == (if animation.Some? && animation.value.AppearUnderPrevious?
                                   then old(host.hidden) - {c} else old(host.hidden))
                && host.trace == old(host.trace)
                   + ReplaceSteps(old(currentChild).value, c, animation, addEndsFirst, Continuation(newState, c, completion))
      // the engine stays valid unless its child is replaced by itself under
      // an animation that adds before it removes
      ensures Valid() <==> !(newState != old(state) && old(currentChild) == Some(childFor(newState))
                             && AddsFirst(AnimationFor(transitionAnimation, animated, old(state), newState)))
    {
      if newState == state {
        host.Run(Callers(completion));
        return;
      }
      if currentChild.None? {
        state := newState;
        ConfigureInitialState();
        host.Run(Callers(completion));
        return;
      }
      var oldChild := currentChild.value;
      var newChild := childFor(newState);
      var animation := AnimationFor(transitionAnimation, animated, state, newState);
      host.ReplaceChild(oldChild, newChild, animation, addEndsFirst, Continuation(newState, newChild, completion));
      state := newState;
      currentChild := Some(newChild);
      if oldChild == newChild {
        ReplaceWithItself(old(host.children), newChild, animation);
      } else {
        ReplacedChildrenOutcome(old(host.children), oldChild, newChild, animation, newChild);
      }
    }
  }

  /** In a transition that replaces the child, `state` and `currentChild`
      are committed exactly once each, after every structural step of the
      replacement and before the caller's completion, which runs once. */
  lemma TransitionCommitsOnce<S, C, A>(oldChild: C, newChild: C, animation: Option<StateTransitionAnimation>,
                                       addEndsFirst: bool, newState: S, completion: seq<A>, a: A)
    ensures var t := ReplaceSteps(oldChild, newChild, animation, addEndsFirst, Continuation(newState, newChild, completion));
            var w := |ReplaceWork<C, Action<S, C, A>>(oldChild, newChild, animation, addEndsFirst)|;
            && (forall i :: 0 <= i < w ==> !t[i].Ran?)
            && t[w] == Ran(CommitState(newState)) && t[w + 1] == Ran(CommitChild(newChild))
            && (forall i :: w + 2 <= i < |t| ==> t[i] == Ran(Caller(completion[i - w - 2])))
            && Count(t, Ran(CommitState(newState))) == 1
            && Count(t, Ran(CommitChild(newChild))) == 1
            && Count(t, Ran(Caller(a))) == Count(completion, a)
  {
    WorkRunsNothing<C, Action<S, C, A>>(oldChild, newChild, animation, addEndsFirst);
    CommitsOnceThenCallers(ReplaceWork<C, Action<S, C, A>>(oldChild, newChild, animation, addEndsFirst),
                           newState, newChild, completion, a);
  }

  /** After a replacing transition with distinct children the old child is
      gone, the new one is hosted exactly once, and it is the last child. */
  lemma ReplacingTransitionOutcome<C>(children: seq<C>, oldChild: C, newChild: C,
                                      animation: Option<StateTransitionAnimation>)
    requires oldChild != newChild
    ensures var r := ReplacedChildren(children, oldChild, newChild, animation);
            && oldChild !in r && newChild in r && Count(r, newChild) == 1
            && r[|r| - 1] == newChild
  {
    ReplacedChildrenOutcome(children, oldChild, newChild, animation, newChild);
  }
}
