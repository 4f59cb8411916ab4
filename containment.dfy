// Source/Public/Children/UIViewController+ChildViewControllers.swift:
// adding, removing and replacing a child view controller of a parent, with
// optional animations and a completion that runs once.
//
// The parent controller's child list, the z-order of its container view's
// subviews and the hidden flags are real state; every primitive UIKit call
// is also recorded, in order, in `trace`. An animated step is split into the
// part that runs when the animation is issued and the part that runs when
// the animation engine reports that it finished; a completion closure is the
// list of actions it performs, recorded as `Ran` steps when it is invoked.

module Containment {
  import opened Wrappers
  import opened Sequences
  import opened Animation

  /** A timed visual effect applied to the container view. */
  datatype Effect<C> = Appear(c: C) | Disappear(c: C)

  /** One primitive step, in the order the source performs it. */
  datatype Step<C, X> =
    | AddChildViewController(c: C)      // addChildViewController
    | AddSubview(c: C)                  // addSubview, then constrainToEdges
    | DidMoveToParent(c: C)             // didMove(toParentViewController: self)
    | WillMoveToNil(c: C)               // willMove(toParentViewController: nil)
    | RemoveFromSuperview(c: C)
    | RemoveFromParent(c: C)            // removeFromParentViewController
    | SetHidden(c: C, hidden: bool)
    | SendToBack(c: C)                  // sendSubview(toBack:)
    | EffectBegan(effect: Effect<C>, options: AnimationOptions)
    | EffectEnded(effect: Effect<C>)    // the animation engine's completion
    | Ran(action: X)                    // one action of a completion closure

  predicate IsRan<C, X>(s: Step<C, X>) { s.Ran? }

  /** The steps of invoking a completion closure. */
  function Runs<C, X>(actions: seq<X>): (r: seq<Step<C, X>>)
    ensures |r| == |actions|
  {
    seq(|actions|, i requires 0 <= i < |actions| => Ran(actions[i]))
  }

  // ----- the two stages of addChild and removeChild -----

  function AddStartSteps<C, X>(c: C, options: Option<AnimationOptions>): seq<Step<C, X>>
  {
    match options
    case None => [AddChildViewController(c), AddSubview(c), DidMoveToParent(c)]
    case Some(o) => [AddChildViewController(c), EffectBegan(Appear(c), o), AddSubview(c)]
  }

  function AddEndSteps<C, X>(c: C, options: Option<AnimationOptions>): seq<Step<C, X>>
  {
    match options
    case None => []
    case Some(_) => [EffectEnded(Appear(c)), DidMoveToParent(c)]
  }

  function RemoveStartSteps<C, X>(c: C, options: Option<AnimationOptions>): seq<Step<C, X>>
  {
    match options
    case None => [WillMoveToNil(c), RemoveFromSuperview(c), RemoveFromParent(c)]
    case Some(o) => [WillMoveToNil(c), EffectBegan(Disappear(c), o), RemoveFromSuperview(c)]
  }

  function RemoveEndSteps<C, X>(c: C, options: Option<AnimationOptions>): seq<Step<C, X>>
  {
    match options
    case None => []
    case Some(_) => [EffectEnded(Disappear(c)), RemoveFromParent(c)]
  }

  function AddSteps<C, X>(c: C, options: Option<AnimationOptions>): seq<Step<C, X>>
  {
    AddStartSteps(c, options) + AddEndSteps(c, options)
  }

  function RemoveSteps<C, X>(c: C, options: Option<AnimationOptions>): seq<Step<C, X>>
  {
    RemoveStartSteps(c, options) + RemoveEndSteps(c, options)
  }

  /** Adding a child hidden, sending it to the back and showing it. */
  function AddBehindSteps<C, X>(c: C): seq<Step<C, X>>
  {
    [SetHidden(c, true)] + AddSteps(c, None) + [SendToBack(c), SetHidden(c, false)]
  }

  /** The finishing stages of two simultaneous operations, in the order the
      animation engine reports them. */
  function EndSteps<C, X>(oldChild: C, newChild: C, onAppear: Option<AnimationOptions>,
                          onRemove: Option<AnimationOptions>, addEndsFirst: bool): seq<Step<C, X>>
  {
    if addEndsFirst then AddEndSteps(newChild, onAppear) + RemoveEndSteps(oldChild, onRemove)
    else RemoveEndSteps(oldChild, onRemove) + AddEndSteps(newChild, onAppear)
  }

  /** The primitive steps of `replaceChild` before its completion runs.
      `addEndsFirst` is the order in which the animation engine reports the
      two effects of the simultaneous case. */
  function ReplaceWork<C, X>(oldChild: C, newChild: C, animation: Option<StateTransitionAnimation>,
                             addEndsFirst: bool): seq<Step<C, X>>
  {
    match animation
    case None =>
      RemoveSteps(oldChild, None) + AddSteps(newChild, None)
    case Some(AppearOverPrevious(onAppear)) =>
      AddSteps(newChild, onAppear) + RemoveSteps(oldChild, None)
    case Some(AppearUnderPrevious(onRemove)) =>
      AddBehindSteps(newChild) + RemoveSteps(oldChild, onRemove)
    case Some(AppearAndSimultaneouslyRemove(onAppear, onRemove)) =>
      AddStartSteps(newChild, onAppear) + RemoveStartSteps(oldChild, onRemove)
      + EndSteps(oldChild, newChild, onAppear, onRemove, addEndsFirst)
    case Some(RemovePreviousThenAppear(onRemove, onAppear)) =>
      RemoveSteps(oldChild, onRemove) + AddSteps(newChild, onAppear)
  }

  function ReplaceSteps<C, X>(oldChild: C, newChild: C, animation: Option<StateTransitionAnimation>,
                              addEndsFirst: bool, completion: seq<X>): seq<Step<C, X>>
  {
    ReplaceWork(oldChild, newChild, animation, addEndsFirst) + Runs(completion)
  }

  /** Whether a branch adds the new child before removing the old one. */
  predicate AddsFirst(animation: Option<StateTransitionAnimation>)
  {
    animation.Some? && !animation.value.RemovePreviousThenAppear?
  }

  /** The parent's child list after `replaceChild`. */
  function ReplacedChildren<C(==)>(children: seq<C>, oldChild: C, newChild: C,
                                   animation: Option<StateTransitionAnimation>): seq<C>
  {
    if AddsFirst(animation) then Without(Added(children, newChild), oldChild)
    else Added(Without(children, oldChild), newChild)
  }

  /** `sendSubview(toBack:)`: a subview moves to the back; any other view is
      ignored. */
  function ToBack<C(==)>(s: seq<C>, c: C): seq<C>
  {
    if c in s then [c] + Without(s, c) else s
  }

  /** The container's subviews, back to front, after `replaceChild`. */
  function ReplacedSubviews<C(==)>(subviews: seq<C>, oldChild: C, newChild: C,
                                   animation: Option<StateTransitionAnimation>): seq<C>
  {
    if animation.Some? && animation.value.AppearUnderPrevious? then
      Without(ToBack(Added(subviews, newChild), newChild), oldChild)
    else ReplacedChildren(subviews, oldChild, newChild, animation)
  }

  /** `replaceChild`'s outcome, one branch at a time, in the shape its
      implementation produces it. */
  lemma ReplaceShapes<C, X>(children: seq<C>, subviews: seq<C>, oldChild: C, newChild: C,
                            animation: Option<StateTransitionAnimation>, addEndsFirst: bool,
                            completion: seq<X>)
    ensures animation.None? ==>
              && ReplacedChildren(children, oldChild, newChild, animation) == Added(Without(children, oldChild), newChild)
              && ReplacedSubviews(subviews, oldChild, newChild, animation) == Added(Without(subviews, oldChild), newChild)
              && ReplaceSteps(oldChild, newChild, animation, addEndsFirst, completion)
                 == (RemoveSteps(oldChild, None) + AddSteps(newChild, None)) + Runs(completion)
    ensures animation.Some? && animation.value.AppearOverPrevious? ==>
              && ReplacedChildren(children, oldChild, newChild, animation) == Without(Added(children, newChild), oldChild)
              && ReplacedSubviews(subviews, oldChild, newChild, animation) == Without(Added(subviews, newChild), oldChild)
              && ReplaceSteps(oldChild, newChild, animation, addEndsFirst, completion)
                 == (AddSteps(newChild, animation.value.onAppear) + RemoveSteps(oldChild, None)) + Runs(completion)
    ensures animation.Some? && animation.value.AppearUnderPrevious? ==>
              && ReplacedChildren(children, oldChild, newChild, animation) == Without(Added(children, newChild), oldChild)
              && ReplacedSubviews(subviews, oldChild, newChild, animation)
                 == Without(ToBack(Added(subviews, newChild), newChild), oldChild)
              && ReplaceSteps(oldChild, newChild, animation, addEndsFirst, completion)
                 == (AddBehindSteps(newChild) + RemoveSteps(oldChild, animation.value.onRemove)) + Runs(completion)
    ensures animation.Some? && animation.value.AppearAndSimultaneouslyRemove? ==>
              && ReplacedChildren(children, oldChild, newChild, animation) == Without(Added(children, newChild), oldChild)
              && ReplacedSubviews(subviews, oldChild, newChild, animation) == Without(Added(subviews, newChild), oldChild)
              && ReplaceSteps(oldChild, newChild, animation, addEndsFirst, completion)
                 == (AddStartSteps(newChild, animation.value.onAppear) + RemoveStartSteps(oldChild, animation.value.onRemove)
                     + EndSteps(oldChild, newChild, animation.value.onAppear, animation.value.onRemove, addEndsFirst))
                    + Runs(completion)
    ensures animation.Some? && animation.value.RemovePreviousThenAppear? ==>
              && ReplacedChildren(children, oldChild, newChild, animation) == Added(Without(children, oldChild), newChild)
              && ReplacedSubviews(subviews, oldChild, newChild, animation) == Added(Without(subviews, oldChild), newChild)
              && ReplaceSteps(oldChild, newChild, animation, addEndsFirst, completion)
                 == (RemoveSteps(oldChild, animation.value.onRemove) + AddSteps(newChild, animation.value.onAppear))
                    + Runs(completion)
  {
  }

  /** A `UIViewController` acting as a parent, with its container view
      (`self.view` by default). Subviews are listed back to front. */
  class Parent<C(==), X> {
    var children: seq<C>
    var subviews: seq<C>
    var hidden: set<C>
    var trace: seq<Step<C, X>>

    constructor ()
      ensures children == [] && subviews == [] && hidden == {} && trace == []
    {
      children, subviews, hidden, trace := [], [], {}, [];
    }

    /** Invokes a completion closure. */
    method Run(actions: seq<X>)
      modifies this
      ensures trace == old(trace) + Runs(actions)
      ensures children == old(children) && subviews == old(subviews) && hidden == old(hidden)
    {
      trace := trace + Runs(actions);
    }

    /** What `addChild` does when it is called: registers the child, then
        (inside the animation block when animated) hosts its view. */
    method AddStart(c: C, options: Option<AnimationOptions>)
      modifies this
      ensures children == Added(old(children), c)
      ensures subviews == Added(old(subviews), c)
      ensures hidden == old(hidden)
      ensures trace == old(trace) + AddStartSteps(c, options)
    {
      children := Added(children, c);
      trace := trace + [AddChildViewController(c)];
      match options {
        case None =>
          subviews := Added(subviews, c);
          trace := trace + [AddSubview(c), DidMoveToParent(c)];
        case Some(o) =>
          trace := trace + [EffectBegan(Appear(c), o)];
          subviews := Added(subviews, c);
          trace := trace + [AddSubview(c)];
      }
    }

    /** What runs when an animated addition's effect finishes. */
    method AddEnd(c: C, options: Option<AnimationOptions>)
      modifies this
      ensures children == old(children) && subviews == old(subviews) && hidden == old(hidden)
      ensures trace == old(trace) + AddEndSteps(c, options)
    {
      if options.Some? {
        trace := trace + [EffectEnded(Appear(c)), DidMoveToParent(c)];
      }
    }

    /** What `removeChild` does when it is called: announces the removal,
        then (inside the animation block when animated) unhosts the view. */
    method RemoveStart(c: C, options: Option<AnimationOptions>)
      requires c in children
      modifies this
      ensures children == (if options.None? then Without(old(children), c) else old(children))
      ensures subviews == Without(old(subviews), c)
      ensures hidden == old(hidden)
      ensures trace == old(trace) + RemoveStartSteps(c, options)
    {
      trace := trace + [WillMoveToNil(c)];
      match options {
        case None =>
          subviews := Without(subviews, c);
          children := Without(children, c);
          trace := trace + [RemoveFromSuperview(c), RemoveFromParent(c)];
        case Some(o) =>
          trace := trace + [EffectBegan(Disappear(c), o)];
          subviews := Without(subviews, c);
          trace := trace + [RemoveFromSuperview(c)];
      }
    }

    /** What runs when an animated removal's effect finishes. */
    method RemoveEnd(c: C, options: Option<AnimationOptions>)
      modifies this
      ensures children == (if options.Some? then Without(old(children), c) else old(children))
      ensures subviews == old(subviews) && hidden == old(hidden)
      ensures trace == old(trace) + RemoveEndSteps(c, options)
    {
      if options.Some? {
        trace := trace + [EffectEnded(Disappear(c)), RemoveFromParent(c)];
        children := Without(children, c);
      }
    }

    /** `addChild(_:constrainedTo:options:completion:)`. */
    method AddChild(c: C, options: Option<AnimationOptions>, completion: seq<X>)
      modifies this
      ensures children == Added(old(children), c)
      ensures subviews == Added(old(subviews), c)
      ensures hidden == old(hidden)
      ensures trace == old(trace) + AddSteps(c, options) + Runs(completion)
    {
      ghost var before := trace;
      AddStart(c, options);
      AddEnd(c, options);
      Run(completion);
      assert trace == before + AddStartSteps(c, options) + AddEndSteps(c, options) + Runs(completion);
    }

    /** `removeChild(_:constrainedTo:options:completion:)`; the source
        asserts that `c` is a child. */
    method RemoveChild(c: C, options: Option<AnimationOptions>, completion: seq<X>)
      requires c in children
      modifies this
      ensures children == Without(old(children), c)
      ensures subviews == Without(old(subviews), c)
      ensures hidden == old(hidden)
      ensures trace == old(trace) + RemoveSteps(c, options) + Runs(completion)
    {
      ghost var before := trace;
      RemoveStart(c, options);
      assert children == (if options.None? then Without(old(children), c) else old(children));
      RemoveEnd(c, options);
      assert children == Without(old(children), c);
      Run(completion);
      AppendAssoc(before, RemoveStartSteps<C, X>(c, options), RemoveEndSteps<C, X>(c, options));
    }

    /** `replaceChild(_:with:constrainedTo:animation:completion:)`. */
    method ReplaceChild(oldChild: C, newChild: C, animation: Option<StateTransitionAnimation>,
                        addEndsFirst: bool, completion: seq<X>)
      requires oldChild in children
      modifies this
      ensures children == ReplacedChildren(old(children), oldChild, newChild, animation)
      ensures subviews == ReplacedSubviews(old(subviews), oldChild, newChild, animation)
      ensures hidden == (if animation.Some? && animation.value.AppearUnderPrevious?
                         then old(hidden) - {newChild} else old(hidden))
      ensures trace == old(trace) + ReplaceSteps(oldChild, newChild, animation, addEndsFirst, completion)
    {
      ReplaceShapes(children, subviews, oldChild, newChild, animation, addEndsFirst, completion);
      match animation {
        case None =>
          ReplaceWithoutAnimation(oldChild, newChild, completion);
        case Some(AppearOverPrevious(onAppear)) =>
          ReplaceOverPrevious(oldChild, newChild, onAppear, completion);
        case Some(AppearUnderPrevious(onRemove)) =>
          ReplaceUnderPrevious(oldChild, newChild, onRemove, completion);
        case Some(AppearAndSimultaneouslyRemove(onAppear, onRemove)) =>
          ReplaceSimultaneously(oldChild, newChild, onAppear, onRemove, addEndsFirst, completion);
        case Some(RemovePreviousThenAppear(onRemove, onAppear)) =>
          ReplaceRemovingFirst(oldChild, newChild, onRemove, onAppear, completion);
      }
    }

    /** The `.none` branch: remove, add, then the completion, synchronously. */
    method ReplaceWithoutAnimation(oldChild: C, newChild: C, completion: seq<X>)
      requires oldChild in children
      modifies this
      ensures children == Added(Without(old(children), oldChild), newChild)
      ensures subviews == Added(Without(old(subviews), oldChild), newChild)
      ensures hidden == old(hidden)
      ensures trace == old(trace) + ((RemoveSteps(oldChild, None) + AddSteps(newChild, None)) + Runs(completion))
    {
      ghost var before := trace;
      RemoveChild(oldChild, None, []);
      ghost var removed := trace;
      AddChild(newChild, None, []);
      Run(completion);
      assert Runs<C, X>([]) == [];
      Regroup(removed, AddSteps<C, X>(newChild, None), Runs<C, X>([]), [], Runs(completion));
      Regroup(before, RemoveSteps<C, X>(oldChild, None), Runs<C, X>([]), AddSteps<C, X>(newChild, None) + [], Runs(completion));
    }

    /** `.appearOverPrevious`: the new child is added (animated), and only
        its completion removes the old child, whose completion is the
        caller's. */
    method ReplaceOverPrevious(oldChild: C, newChild: C, onAppear: Option<AnimationOptions>, completion: seq<X>)
      requires oldChild in children
      modifies this
      ensures children == Without(Added(old(children), newChild), oldChild)
      ensures subviews == Without(Added(old(subviews), newChild), oldChild)
      ensures hidden == old(hidden)
      ensures trace == old(trace) + ((AddSteps(newChild, onAppear) + RemoveSteps(oldChild, None)) + Runs(completion))
    {
      ghost var before := trace;
      InAdded(children, newChild, oldChild);
      AddChild(newChild, onAppear, []);
      RemoveChild(oldChild, None, completion);
      assert Runs<C, X>([]) == [];
      Regroup(before, AddSteps<C, X>(newChild, onAppear), Runs<C, X>([]), RemoveSteps<C, X>(oldChild, None), Runs(completion));
    }

    /** `.appearUnderPrevious`: the new child is added hidden, sent to the
        back and shown; then the old child is removed (animated). */
    method ReplaceUnderPrevious(oldChild: C, newChild: C, onRemove: Option<AnimationOptions>, completion: seq<X>)
      requires oldChild in children
      modifies this
      ensures children == Without(Added(old(children), newChild), oldChild)
      ensures subviews == Without(ToBack(Added(old(subviews), newChild), newChild), oldChild)
      ensures hidden == old(hidden) - {newChild}
      ensures trace == old(trace) + ((AddBehindSteps(newChild) + RemoveSteps(oldChild, onRemove)) + Runs(completion))
    {
      ghost var before := trace;
      InAdded(children, newChild, oldChild);
      AddBehind(newChild);
      RemoveChild(oldChild, onRemove, completion);
      ghost var work := AddBehindSteps<C, X>(newChild) + RemoveSteps<C, X>(oldChild, onRemove);
      AppendAssoc(before, AddBehindSteps<C, X>(newChild), RemoveSteps<C, X>(oldChild, onRemove));
      assert trace == before + work + Runs(completion);
      AppendAssoc(before, work, Runs<C, X>(completion));
    }

    /** The first half of `.appearUnderPrevious`: the new child is added
        while hidden, moved behind every other subview, and shown. */
    method AddBehind(c: C)
      modifies this
      ensures children == Added(old(children), c)
      ensures subviews == ToBack(Added(old(subviews), c), c)
      ensures hidden == old(hidden) - {c}
      ensures trace == old(trace) + AddBehindSteps(c)
    {
      ghost var before := trace;
      hidden := hidden + {c};
      trace := trace + [SetHidden(c, true)];
      AddChild(c, None, []);
      subviews := ToBack(subviews, c);
      hidden := hidden - {c};
      trace := trace + [SendToBack(c), SetHidden(c, false)];
      assert Runs<C, X>([]) == [];
      assert trace == before + AddBehindSteps(c);
    }

    /** `.appearAndSimultaneouslyRemove`: both operations are issued before
        either finishes; a dispatch group counts the unfinished ones, one
        `enter` per operation and one `leave` per finished operation, and
        its `notify` runs the completion once the count is back to zero. */
    method ReplaceSimultaneously(oldChild: C, newChild: C, onAppear: Option<AnimationOptions>,
                                 onRemove: Option<AnimationOptions>, addEndsFirst: bool, completion: seq<X>)
      requires oldChild in children
      modifies this
      ensures children == Without(Added(old(children), newChild), oldChild)
      ensures subviews == Without(Added(old(subviews), newChild), oldChild)
      ensures hidden == old(hidden)
      ensures trace == old(trace) + ((AddStartSteps(newChild, onAppear) + RemoveStartSteps(oldChild, onRemove)
                                     + EndSteps(oldChild, newChild, onAppear, onRemove, addEndsFirst)) + Runs(completion))
    {
      ghost var before := trace;
      var outstanding := 1;
      InAdded(children, newChild, oldChild);
      AddStart(newChild, onAppear);
      if onAppear.None? { outstanding := outstanding - 1; }
      outstanding := outstanding + 1;
      RemoveStart(oldChild, onRemove);
      if onRemove.None? { outstanding := outstanding - 1; }
      var finished := DeliverEffectEnds(oldChild, newChild, onAppear, onRemove, addEndsFirst);
      outstanding := outstanding - finished;
      assert outstanding == 0;
      Run(completion);
      ghost var addStart := AddStartSteps<C, X>(newChild, onAppear);
      ghost var removeStart := RemoveStartSteps<C, X>(oldChild, onRemove);
      AppendAssoc(before, addStart + removeStart, EndSteps<C, X>(oldChild, newChild, onAppear, onRemove, addEndsFirst));
      AppendAssoc(before, addStart, removeStart);
      AppendAssoc(before, addStart + removeStart + EndSteps<C, X>(oldChild, newChild, onAppear, onRemove, addEndsFirst),
                  Runs<C, X>(completion));
    }

    /** The animation engine reports the animated operations of the
        simultaneous case, in the order it chooses; each report is one
        `leave` of the dispatch group. Returns the number of reports. */
    method DeliverEffectEnds(oldChild: C, newChild: C, onAppear: Option<AnimationOptions>,
                             onRemove: Option<AnimationOptions>, addEndsFirst: bool) returns (finished: nat)
      modifies this
      ensures finished == (if onAppear.Some? then 1 else 0) + (if onRemove.Some? then 1 else 0)
      ensures children == (if onRemove.Some? then Without(old(children), oldChild) else old(children))
      ensures subviews == old(subviews) && hidden == old(hidden)
      ensures trace == old(trace) + EndSteps(oldChild, newChild, onAppear, onRemove, addEndsFirst)
    {
      finished := 0;
      if addEndsFirst {
        if onAppear.Some? { AddEnd(newChild, onAppear); finished := finished + 1; }
        if onRemove.Some? { RemoveEnd(oldChild, onRemove); finished := finished + 1; }
      } else {
        if onRemove.Some? { RemoveEnd(oldChild, onRemove); finished := finished + 1; }
        if onAppear.Some? { AddEnd(newChild, onAppear); finished := finished + 1; }
      }
    }

    /** `.removePreviousThenAppear`: the old child is removed (animated), and
        only its completion adds the new child, whose completion is the
        caller's. */
    method ReplaceRemovingFirst(oldChild: C, newChild: C, onRemove: Option<AnimationOptions>,
                                onAppear: Option<AnimationOptions>, completion: seq<X>)
      requires oldChild in children
      modifies this
      ensures children == Added(Without(old(children), oldChild), newChild)
      ensures subviews == Added(Without(old(subviews), oldChild), newChild)
      ensures hidden == old(hidden)
      ensures trace == old(trace) + ((RemoveSteps(oldChild, onRemove) + AddSteps(newChild, onAppear)) + Runs(completion))
    {
      ghost var before := trace;
      RemoveChild(oldChild, onRemove, []);
      AddChild(newChild, onAppear, completion);
      assert Runs<C, X>([]) == [];
      Regroup(before, RemoveSteps<C, X>(oldChild, onRemove), Runs<C, X>([]), AddSteps<C, X>(newChild, onAppear), Runs(completion));
    }
  }
}
