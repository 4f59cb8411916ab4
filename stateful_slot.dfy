// Source/Public/Stateful/StatefulViewController.swift: the earlier
// revision of the single-slot engine. Its configuration is not guarded, and
// a transition without a current child stops at an assertion.
//
// `assertionFailure` traps only in debug builds; the model follows a
// release build, where the transition returns without doing anything.

module StatefulSlot {
  import opened Wrappers
  import opened Sequences
  import opened Animation
  import opened Containment
  import opened ContainmentProperties
  import opened SlotActions

  class StatefulViewController<S(==), C(==), A> {
    const host: Parent<C, Action<S, C, A>>
    const childFor: S -> C
    const transitionAnimation: (S, S) -> Option<StateTransitionAnimation>
    var state: S
    var currentChild: Option<C>

    /** `init(initialState:)`. */
    constructor (initialState: S, childFor: S -> C, transitionAnimation: (S, S) -> Option<StateTransitionAnimation>)
      ensures state == initialState && currentChild == None
      ensures this.childFor == childFor && this.transitionAnimation == transitionAnimation
      ensures fresh(host)
      ensures host.children == [] && host.subviews == [] && host.hidden == {} && host.trace == []
    {
      state := initialState;
      currentChild := None;
      this.childFor := childFor;
      this.transitionAnimation := transitionAnimation;
      host := new Parent();
    }

    predicate Valid()
      reads this, host
    {
      currentChild.Some? ==> currentChild.value in host.children
    }

    /** `configureInitialState()`: every call adds the state's child again
        and makes it the current child; a child added by an earlier call
        stays a child. */
    method ConfigureInitialState()
      modifies this, host
      ensures state == old(state) && currentChild == Some(childFor(state))
      ensures host.children == Added(old(host.children), childFor(state))
      ensures host.subviews == Added(old(host.subviews), childFor(state))
      ensures host.hidden == old(host.hidden)
      ensures host.trace == old(host.trace) + AddSteps(childFor(state), None)
      ensures forall c :: c in old(host.children) ==> c in host.children
      ensures Valid()
    {
      var initialChild := childFor(state);
      currentChild := Some(initialChild);
      host.AddChild(initialChild, None, []);
      assert Runs<C, Action<S, C, A>>([]) == [];
      InAdded(old(host.children), initialChild, initialChild);
      forall c | c in old(host.children)
        ensures c in host.children
      {
        InAdded(old(host.children), initialChild, c);
      }
    }

    /** `transition(to:animated:completion:)`. */
    method Transition(newState: S, animated: bool, addEndsFirst: bool, completion: seq<A>)
      requires Valid()
      modifies this, host
      // the same state: only the completion runs
      ensures newState == old(state) ==>
                state == old(state) && currentChild == old(currentChild)
                && host.children == old(host.children) && host.subviews == old(host.subviews)
                && host.hidden == old(host.hidden)
                && host.trace == old(host.trace) + Runs(Callers(completion))
      // no current child: nothing at all happens, not even the completion
      ensures newState != old(state) && old(currentChild).None? ==>
                state == old(state) && currentChild == None
                && host.children == old(host.children) && host.subviews == old(host.subviews)
                && host.hidden == old(host.hidden) && host.trace == old(host.trace)
      // otherwise: replace, and commit inside the continuation
      ensures newState != old(state) && old(currentChild).Some? ==>
                var c := childFor(newState);
                var animation := AnimationFor(transitionAnimation, animated, old(state), newState);
                state == newState && currentChild == Some(c)
                && host.children == ReplacedChildren(old(host.children), old(currentChild).value, c, animation)
                && host.subviews == ReplacedSubviews(old(host.subviews), old(currentChild).value, c, animation)
                && host.hidden == (if animation.Some? && animation.value.AppearUnderPrevious?
                                   then old(host.hidden) - {c} else old(host.hidden))
                && host.trace == old(host.trace)
                   + ReplaceSteps(old(currentChild).value, c, animation, addEndsFirst, Continuation(newState, c, completion))
      ensures Valid() <==> !(newState != old(state) && old(currentChild) == Some(childFor(newState))
                             && AddsFirst(AnimationFor(transitionAnimation, animated, old(state), newState)))
    {
      if newState == state {
        host.Run(Callers(completion));
        return;
      }
      if currentChild.None? {
        return;
      }
      var oldChild := currentChild.value;
      var newChild := childFor(newState);
      var animation := AnimationFor(transitionAnimation, animated, state, newState);
      host.ReplaceChild(oldChild, newChild, animation, addEndsFirst, Continuation(newState, newChild, completion));
      state := newState;
      currentChild := Some(newChild);
      if oldChild == newChild {
        ReplaceWithItself(old(host.children), newChild, animation);
      } else {
        ReplacedChildrenOutcome(old(host.children), oldChild, newChild, animation, newChild);
      }
    }
  }

  /** Configuring twice for two states with different children hosts both
      children: the first one is never removed. */
  lemma {:induction false} ReconfigurationKeepsEarlierChild<C>(children: seq<C>, first: C, second: C)
    requires first != second
    ensures var r := Added(Added(children, first), second);
            first in r && second in r && r[|r| - 1] == second
  {
    InAdded(children, first, first);
    InAdded(Added(children, first), second, first);
    InAdded(Added(children, first), second, second);
  }
}
