// Source/Public/UIViewController+ChildViewControllers.swift with
// Public/StateTransitionBehavior.swift: the oldest revision of child
// containment, where a replacement is described by an order and two
// optional animations instead of an animation case.
//
// Its `addChild` and `removeChild` perform exactly the steps of the current
// revision (Containment.Parent.AddChild and RemoveChild); only
// `replaceChild` differs.

module LegacyContainment {
  import opened Wrappers
  import opened Sequences
  import opened Animation
  import opened Containment
  import opened ContainmentProperties

  /** `StateTransitionBehavior.Order`. */
  datatype Order = RemoveExistingChildFirst | AddNewChildFirst | Simultaneous

  /** `StateTransitionBehavior`; its initializer defaults both animations
      to `nil`. A legacy animation is a (duration, options) pair, the same
      data as `AnimationOptions`. */
  datatype TransitionBehavior = TransitionBehavior(order: Order, additionAnimations: Option<AnimationOptions>,
                                                   removalAnimations: Option<AnimationOptions>)

  /** The primitive steps of the legacy `replaceChild` before its completion
      runs. */
  function LegacyReplaceWork<C, X>(oldChild: C, newChild: C, behavior: TransitionBehavior,
                                   addEndsFirst: bool): seq<Step<C, X>>
  {
    var add := behavior.additionAnimations;
    var remove := behavior.removalAnimations;
    match behavior.order
    case AddNewChildFirst => AddSteps(newChild, add) + RemoveSteps(oldChild, remove)
    case RemoveExistingChildFirst => RemoveSteps(oldChild, remove) + AddSteps(newChild, add)
    case Simultaneous =>
      AddStartSteps(newChild, add) + RemoveStartSteps(oldChild, remove)
      + EndSteps(oldChild, newChild, add, remove, addEndsFirst)
  }

  function LegacyReplaceSteps<C, X>(oldChild: C, newChild: C, behavior: TransitionBehavior,
                                    addEndsFirst: bool, completion: seq<X>): seq<Step<C, X>>
  {
    LegacyReplaceWork(oldChild, newChild, behavior, addEndsFirst) + Runs(completion)
  }

  /** The parent's child list (and, in the same way, the container's
      subviews) after the legacy `replaceChild`. */
  function LegacyReplaced<C(==)>(s: seq<C>, oldChild: C, newChild: C, behavior: TransitionBehavior): seq<C>
  {
    if behavior.order == RemoveExistingChildFirst then Added(Without(s, oldChild), newChild)
    else Without(Added(s, newChild), oldChild)
  }

  /** The legacy `replaceChild`'s outcome, one order at a time, in the
      shape its implementation produces it. */
  lemma LegacyShapes<C, X>(children: seq<C>, subviews: seq<C>, oldChild: C, newChild: C,
                           behavior: TransitionBehavior, addEndsFirst: bool, completion: seq<X>)
    ensures var add := behavior.additionAnimations;
            var remove := behavior.removalAnimations;
            behavior.order == AddNewChildFirst ==>
              && LegacyReplaced(children, oldChild, newChild, behavior) == Without(Added(children, newChild), oldChild)
              && LegacyReplaced(subviews, oldChild, newChild, behavior) == Without(Added(subviews, newChild), oldChild)
              && LegacyReplaceSteps(oldChild, newChild, behavior, addEndsFirst, completion)
                 == (AddSteps(newChild, add) + RemoveSteps(oldChild, remove)) + Runs(completion)
    ensures var add := behavior.additionAnimations;
            var remove := behavior.removalAnimations;
            behavior.order == RemoveExistingChildFirst ==>
              && LegacyReplaced(children, oldChild, newChild, behavior) == Added(Without(children, oldChild), newChild)
              && LegacyReplaced(subviews, oldChild, newChild, behavior) == Added(Without(subviews, oldChild), newChild)
              && LegacyReplaceSteps(oldChild, newChild, behavior, addEndsFirst, completion)
                 == (RemoveSteps(oldChild, remove) + AddSteps(newChild, add)) + Runs(completion)
    ensures var add := behavior.additionAnimations;
            var remove := behavior.removalAnimations;
            behavior.order == Order.Simultaneous ==>
              && LegacyReplaced(children, oldChild, newChild, behavior) == Without(Added(children, newChild), oldChild)
              && LegacyReplaced(subviews, oldChild, newChild, behavior) == Without(Added(subviews, newChild), oldChild)
              && LegacyReplaceSteps(oldChild, newChild, behavior, addEndsFirst, completion)
                 == (AddStartSteps(newChild, add) + RemoveStartSteps(oldChild, remove)
                     + EndSteps(oldChild, newChild, add, remove, addEndsFirst)) + Runs(completion)
  {
  }

  /** The legacy `replaceChild(_:with:constrainedTo:transitionBehavior:completion:)`
      acting on `parent`; like `removeChild`, it needs the old controller to
      be a child. Its `removeExistingChildFirst` and `simultaneous` branches
      are, line for line, the current revision's `.removePreviousThenAppear`
      and `.appearAndSimultaneouslyRemove` branches. */
  method ReplaceChild<C(==), X>(parent: Parent<C, X>, oldChild: C, newChild: C, behavior: TransitionBehavior,
                                addEndsFirst: bool, completion: seq<X>)
    requires oldChild in parent.children
    modifies parent
    ensures parent.children == LegacyReplaced(old(parent.children), oldChild, newChild, behavior)
    ensures parent.subviews == LegacyReplaced(old(parent.subviews), oldChild, newChild, behavior)
    ensures parent.hidden == old(parent.hidden)
    ensures parent.trace == old(parent.trace) + LegacyReplaceSteps(oldChild, newChild, behavior, addEndsFirst, completion)
  {
    LegacyShapes(parent.children, parent.subviews, oldChild, newChild, behavior, addEndsFirst, completion);
    var add := behavior.additionAnimations;
    var remove := behavior.removalAnimations;
    match behavior.order {
      case AddNewChildFirst =>
        AddThenRemove(parent, oldChild, newChild, add, remove, completion);
      case RemoveExistingChildFirst =>
        parent.ReplaceRemovingFirst(oldChild, newChild, remove, add, completion);
      case Simultaneous =>
        parent.ReplaceSimultaneously(oldChild, newChild, add, remove, addEndsFirst, completion);
    }
  }

  /** `addNewChildFirst`: the addition's completion removes the old child,
      with the removal animations and the caller's completion. */
  method AddThenRemove<C(==), X>(parent: Parent<C, X>, oldChild: C, newChild: C, add: Option<AnimationOptions>,
                                 remove: Option<AnimationOptions>, completion: seq<X>)
    requires oldChild in parent.children
    modifies parent
    ensures parent.children == Without(Added(old(parent.children), newChild), oldChild)
    ensures parent.subviews == Without(Added(old(parent.subviews), newChild), oldChild)
    ensures parent.hidden == old(parent.hidden)
    ensures parent.trace == old(parent.trace) + ((AddSteps(newChild, add) + RemoveSteps(oldChild, remove)) + Runs(completion))
  {
    ghost var before := parent.trace;
    InAdded(parent.children, newChild, oldChild);
    parent.AddChild(newChild, add, []);
    parent.RemoveChild(oldChild, remove, completion);
    assert Runs<C, X>([]) == [];
    Regroup(before, AddSteps<C, X>(newChild, add), Runs<C, X>([]), RemoveSteps<C, X>(oldChild, remove), Runs(completion));
  }

  // ----- properties -----

  /** The legacy child list (or subview list) after a replacement holds
      the new child unless the child replaced itself under an order that
      adds before it removes; a different old child is gone. */
  lemma LegacyReplacedOutcome<C>(s: seq<C>, oldChild: C, newChild: C, behavior: TransitionBehavior)
    ensures newChild in LegacyReplaced(s, oldChild, newChild, behavior)
            <==> behavior.order == RemoveExistingChildFirst || oldChild != newChild
    ensures oldChild != newChild ==> oldChild !in LegacyReplaced(s, oldChild, newChild, behavior)
  {
    if behavior.order == RemoveExistingChildFirst {
      InAdded(Without(s, oldChild), newChild, newChild);
      InAdded(Without(s, oldChild), newChild, oldChild);
      InWithout(s, oldChild, oldChild);
    } else {
      InAdded(s, newChild, newChild);
      InWithout(Added(s, newChild), oldChild, newChild);
      InWithout(Added(s, newChild), oldChild, oldChild);
    }
  }

  /** Two of the three legacy orders are animation cases of the current
      revision under another name, and the third, without a removal
      animation, is `.appearOverPrevious`: the same steps and the same
      resulting child list. */
  lemma LegacyMatchesCurrent<C, X>(children: seq<C>, oldChild: C, newChild: C,
                                        add: Option<AnimationOptions>, remove: Option<AnimationOptions>,
                                        addEndsFirst: bool)
    ensures LegacyReplaceWork<C, X>(oldChild, newChild, TransitionBehavior(Order.Simultaneous, add, remove), addEndsFirst)
         == ReplaceWork<C, X>(oldChild, newChild, Some(AppearAndSimultaneouslyRemove(add, remove)), addEndsFirst)
    ensures LegacyReplaceWork<C, X>(oldChild, newChild, TransitionBehavior(RemoveExistingChildFirst, add, remove), addEndsFirst)
         == ReplaceWork<C, X>(oldChild, newChild, Some(RemovePreviousThenAppear(remove, add)), addEndsFirst)
    ensures LegacyReplaceWork<C, X>(oldChild, newChild, TransitionBehavior(AddNewChildFirst, add, None), addEndsFirst)
         == ReplaceWork<C, X>(oldChild, newChild, Some(AppearOverPrevious(add)), addEndsFirst)
    ensures LegacyReplaced(children, oldChild, newChild, TransitionBehavior(Order.Simultaneous, add, remove))
         == ReplacedChildren(children, oldChild, newChild, Some(AppearAndSimultaneouslyRemove(add, remove)))
    ensures LegacyReplaced(children, oldChild, newChild, TransitionBehavior(RemoveExistingChildFirst, add, remove))
         == ReplacedChildren(children, oldChild, newChild, Some(RemovePreviousThenAppear(remove, add)))
    ensures LegacyReplaced(children, oldChild, newChild, TransitionBehavior(AddNewChildFirst, add, remove))
         == ReplacedChildren(children, oldChild, newChild, Some(AppearOverPrevious(add)))
  {
  }

  /** With a removal animation, `addNewChildFirst` has no counterpart in
      the current revision: the old child disappears with an effect that
      `.appearOverPrevious` never plays. */
  lemma AddFirstWithRemovalIsNew<C, X>(oldChild: C, newChild: C, add: Option<AnimationOptions>,
                                       remove: AnimationOptions, addEndsFirst: bool, completion: seq<X>)
    ensures EffectBegan(Disappear(oldChild), remove)
            in LegacyReplaceSteps(oldChild, newChild, TransitionBehavior(AddNewChildFirst, add, Some(remove)),
                                  addEndsFirst, completion)
    ensures EffectBegan(Disappear(oldChild), remove)
            !in ReplaceSteps(oldChild, newChild, Some(AppearOverPrevious(add)), addEndsFirst, completion)
  {
    var legacy := LegacyReplaceSteps(oldChild, newChild, TransitionBehavior(AddNewChildFirst, add, Some(remove)),
                                     addEndsFirst, completion);
    var a := AddSteps<C, X>(newChild, add);
    assert legacy[|a| + 1] == EffectBegan(Disappear(oldChild), remove);
    EffectsFollowProjections<C, X>(oldChild, newChild, Some(AppearOverPrevious(add)), addEndsFirst, completion, remove);
  }

  /** No legacy structural step is a completion action. */
  lemma LegacyWorkRunsNothing<C, X>(oldChild: C, newChild: C, behavior: TransitionBehavior, addEndsFirst: bool)
    ensures NoActions(LegacyReplaceWork<C, X>(oldChild, newChild, behavior, addEndsFirst))
  {
    var add := behavior.additionAnimations;
    var remove := behavior.removalAnimations;
    match behavior.order {
      case AddNewChildFirst =>
        StagesRunNothing<C, X>(oldChild, remove);
        StagesRunNothing<C, X>(newChild, add);
        NoActionsAppend(AddSteps<C, X>(newChild, add), RemoveSteps<C, X>(oldChild, remove));
      case RemoveExistingChildFirst =>
        WorkRunsNothing<C, X>(oldChild, newChild, Some(RemovePreviousThenAppear(remove, add)), addEndsFirst);
      case Simultaneous =>
        WorkRunsNothing<C, X>(oldChild, newChild, Some(AppearAndSimultaneouslyRemove(add, remove)), addEndsFirst);
    }
  }

  /** Every legacy order calls the completion exactly once, after all of
      its structural work. */
  lemma LegacyCompletionRunsOnce<C, X>(oldChild: C, newChild: C, behavior: TransitionBehavior,
                                       addEndsFirst: bool, completion: seq<X>, x: X)
    ensures var s := LegacyReplaceSteps(oldChild, newChild, behavior, addEndsFirst, completion);
            var w := |LegacyReplaceWork<C, X>(oldChild, newChild, behavior, addEndsFirst)|;
            && |s| == w + |completion|
            && (forall i :: 0 <= i < w ==> !s[i].Ran?)
            && (forall i :: w <= i < |s| ==> s[i] == Ran(completion[i - w]))
            && Count(s, Ran(x)) == Count(completion, x)
  {
    LegacyWorkRunsNothing<C, X>(oldChild, newChild, behavior, addEndsFirst);
    WorkThenCompletion(LegacyReplaceWork<C, X>(oldChild, newChild, behavior, addEndsFirst), completion, x);
  }

  /** `addNewChildFirst`: the new child has moved to the parent (after its
      effect, when animated) before the old child is told it will move. */
  lemma AddNewChildFirstOrder<C, X>(oldChild: C, newChild: C, add: Option<AnimationOptions>,
                                    remove: Option<AnimationOptions>, addEndsFirst: bool, completion: seq<X>)
    ensures var s := LegacyReplaceSteps(oldChild, newChild, TransitionBehavior(AddNewChildFirst, add, remove),
                                        addEndsFirst, completion);
            && Precedes(s, DidMoveToParent(newChild), WillMoveToNil(oldChild))
            && (add.Some? ==> Precedes(s, EffectEnded(Appear(newChild)), WillMoveToNil(oldChild)))
  {
    var a := AddSteps<C, X>(newChild, add);
    var rest := RemoveSteps<C, X>(oldChild, remove) + Runs(completion);
    OutsideRemoval<C, X>(oldChild, remove, completion, DidMoveToParent(newChild));
    OutsideRemoval<C, X>(oldChild, remove, completion, EffectEnded(Appear(newChild)));
    AddNewChildFirstShape<C, X>(oldChild, newChild, add, remove, addEndsFirst, completion);
    PrecedesAcross(a, rest, DidMoveToParent(newChild), WillMoveToNil(oldChild));
    if add.Some? {
      PrecedesAcross(a, rest, EffectEnded(Appear(newChild)), WillMoveToNil(oldChild));
    }
  }

  /** `addNewChildFirst`, animated removal: the old child's disappearance
      begins only after the new child has moved to the parent. */
  lemma AddNewChildFirstRemovalOrder<C, X>(oldChild: C, newChild: C, add: Option<AnimationOptions>,
                                           remove: AnimationOptions, addEndsFirst: bool, completion: seq<X>)
    ensures Precedes(LegacyReplaceSteps(oldChild, newChild, TransitionBehavior(AddNewChildFirst, add, Some(remove)),
                                        addEndsFirst, completion),
                     DidMoveToParent(newChild), EffectBegan(Disappear(oldChild), remove))
  {
    var a := AddSteps<C, X>(newChild, add);
    var rest := RemoveSteps<C, X>(oldChild, Some(remove)) + Runs(completion);
    OutsideRemoval<C, X>(oldChild, Some(remove), completion, DidMoveToParent(newChild));
    AddNewChildFirstShape<C, X>(oldChild, newChild, add, Some(remove), addEndsFirst, completion);
    assert rest[1] == EffectBegan(Disappear(oldChild), remove);
    EffectsOfStages<C, X>(newChild, oldChild, add, remove);
    PrecedesAcross(a, rest, DidMoveToParent(newChild), EffectBegan(Disappear(oldChild), remove));
  }

  /** The steps of `addNewChildFirst`: the whole addition, then the whole
      removal, then the completion. */
  lemma AddNewChildFirstShape<C, X>(oldChild: C, newChild: C, add: Option<AnimationOptions>,
                                    remove: Option<AnimationOptions>, addEndsFirst: bool, completion: seq<X>)
    ensures LegacyReplaceSteps(oldChild, newChild, TransitionBehavior(AddNewChildFirst, add, remove), addEndsFirst, completion)
            == AddSteps<C, X>(newChild, add) + (RemoveSteps<C, X>(oldChild, remove) + Runs(completion))
  {
    LegacyShapes<C, X>([], [], oldChild, newChild, TransitionBehavior(AddNewChildFirst, add, remove),
                       addEndsFirst, completion);
    AppendAssoc(AddSteps<C, X>(newChild, add), RemoveSteps<C, X>(oldChild, remove), Runs<C, X>(completion));
  }
}
