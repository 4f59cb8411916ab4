// What `replaceChild`, `addChild` and `removeChild` in
// Source/Public/Children/UIViewController+ChildViewControllers.swift promise
// about the order of their steps, the completion, the effects they animate,
// and the children and subviews they leave behind.

module ContainmentProperties {
  import opened Wrappers
  import opened Sequences
  import opened Animation
  import opened Containment

  /** Every occurrence of `a` in `s` comes before every occurrence of `b`,
      and both occur. */
  predicate Precedes<T(==)>(s: seq<T>, a: T, b: T)
  {
    a in s && b in s
    && forall i, j :: 0 <= i < |s| && 0 <= j < |s| && s[i] == a && s[j] == b ==> i < j
  }

  lemma PrecedesAcross<T>(a: seq<T>, b: seq<T>, x: T, y: T)
    requires x in a && x !in b && y !in a && y in b
    ensures Precedes(a + b, x, y)
  {
    forall i, j | 0 <= i < |a + b| && 0 <= j < |a + b| && (a + b)[i] == x && (a + b)[j] == y
      ensures i < j
    {
    }
  }

  lemma PrecedesExtended<T>(a: seq<T>, b: seq<T>, x: T, y: T)
    requires x !in a && y !in a
    ensures Precedes(b, x, y) ==> Precedes(b + a, x, y)
    ensures Precedes(b, x, y) ==> Precedes(a + b, x, y)
  {
    if Precedes(b, x, y) {
      forall i, j | 0 <= i < |b + a| && 0 <= j < |b + a| && (b + a)[i] == x && (b + a)[j] == y
        ensures i < j
      {
        assert b[i] == x && b[j] == y;
      }
      forall i, j | 0 <= i < |a + b| && 0 <= j < |a + b| && (a + b)[i] == x && (a + b)[j] == y
        ensures i < j
      {
        assert b[i - |a|] == x && b[j - |a|] == y;
      }
    }
  }

  // ----- the completion -----

  /** Invoking a closure records exactly its actions, in order. */
  lemma RunsAreTheActions<C, X>(actions: seq<X>)
    ensures forall i :: 0 <= i < |actions| ==> Runs<C, X>(actions)[i] == Ran(actions[i])
  {
  }

  lemma {:induction false} RunsCount<C, X>(actions: seq<X>, x: X)
    ensures Count(Runs<C, X>(actions), Ran(x)) == Count(actions, x)
  {
    if actions != [] {
      RunsCount<C, X>(actions[1..], x);
      assert Runs<C, X>(actions)[1..] == Runs<C, X>(actions[1..]);
    }
  }

  /** `s` holds no completion action. */
  ghost predicate NoActions<C, X>(s: seq<Step<C, X>>)
  {
    forall i :: 0 <= i < |s| ==> !s[i].Ran?
  }

  lemma NoActionsAppend<C, X>(a: seq<Step<C, X>>, b: seq<Step<C, X>>)
    requires NoActions(a) && NoActions(b)
    ensures NoActions(a + b)
  {
    assert forall i :: |a| <= i < |a + b| ==> (a + b)[i] == b[i - |a|];
  }

  lemma StagesRunNothing<C, X>(c: C, options: Option<AnimationOptions>)
    ensures NoActions(AddSteps<C, X>(c, options)) && NoActions(RemoveSteps<C, X>(c, options))
    ensures NoActions(AddStartSteps<C, X>(c, options)) && NoActions(RemoveStartSteps<C, X>(c, options))
    ensures NoActions(AddEndSteps<C, X>(c, options)) && NoActions(RemoveEndSteps<C, X>(c, options))
    ensures NoActions(AddBehindSteps<C, X>(c))
  {
    assert AddBehindSteps<C, X>(c) == [SetHidden(c, true), AddChildViewController(c), AddSubview(c),
                                       DidMoveToParent(c), SendToBack(c), SetHidden(c, false)];
  }

  /** No structural step of `replaceChild` is an action of the completion. */
  lemma WorkRunsNothing<C, X>(oldChild: C, newChild: C, animation: Option<StateTransitionAnimation>,
                              addEndsFirst: bool)
    ensures NoActions(ReplaceWork<C, X>(oldChild, newChild, animation, addEndsFirst))
  {
    match animation {
      case None =>
        StagesRunNothing<C, X>(oldChild, None);
        StagesRunNothing<C, X>(newChild, None);
        NoActionsAppend(RemoveSteps<C, X>(oldChild, None), AddSteps<C, X>(newChild, None));
      case Some(AppearOverPrevious(onAppear)) =>
        StagesRunNothing<C, X>(oldChild, None);
        StagesRunNothing<C, X>(newChild, onAppear);
        NoActionsAppend(AddSteps<C, X>(newChild, onAppear), RemoveSteps<C, X>(oldChild, None));
      case Some(AppearUnderPrevious(onRemove)) =>
        StagesRunNothing<C, X>(oldChild, onRemove);
        StagesRunNothing<C, X>(newChild, None);
        NoActionsAppend(AddBehindSteps<C, X>(newChild), RemoveSteps<C, X>(oldChild, onRemove));
      case Some(AppearAndSimultaneouslyRemove(onAppear, onRemove)) =>
        StagesRunNothing<C, X>(oldChild, onRemove);
        StagesRunNothing<C, X>(newChild, onAppear);
        NoActionsAppend(AddStartSteps<C, X>(newChild, onAppear), RemoveStartSteps<C, X>(oldChild, onRemove));
        NoActionsAppend(AddEndSteps<C, X>(newChild, onAppear), RemoveEndSteps<C, X>(oldChild, onRemove));
        NoActionsAppend(RemoveEndSteps<C, X>(oldChild, onRemove), AddEndSteps<C, X>(newChild, onAppear));
        NoActionsAppend(AddStartSteps<C, X>(newChild, onAppear) + RemoveStartSteps<C, X>(oldChild, onRemove),
                        EndSteps<C, X>(oldChild, newChild, onAppear, onRemove, addEndsFirst));
      case Some(RemovePreviousThenAppear(onRemove, onAppear)) =>
        StagesRunNothing<C, X>(oldChild, onRemove);
        StagesRunNothing<C, X>(newChild, onAppear);
        NoActionsAppend(RemoveSteps<C, X>(oldChild, onRemove), AddSteps<C, X>(newChild, onAppear));
    }
  }

  /** The completion runs once, after every structural step: the steps of
      `replaceChild` are its structural work, none of which is a completion
      action, followed by the completion's actions in order. For each
      action, the steps run it exactly as often as the completion does. */
  lemma CompletionRunsOnceAfterTheWork<C, X>(oldChild: C, newChild: C, animation: Option<StateTransitionAnimation>,
                                             addEndsFirst: bool, completion: seq<X>, x: X)
    ensures var s := ReplaceSteps(oldChild, newChild, animation, addEndsFirst, completion);
            var w := |ReplaceWork<C, X>(oldChild, newChild, animation, addEndsFirst)|;
            && |s| == w + |completion|
            && (forall i :: 0 <= i < w ==> !s[i].Ran?)
            && (forall i :: w <= i < |s| ==> s[i] == Ran(completion[i - w]))
            && Count(s, Ran(x)) == Count(completion, x)
  {
    WorkRunsNothing<C, X>(oldChild, newChild, animation, addEndsFirst);
    WorkThenCompletion(ReplaceWork<C, X>(oldChild, newChild, animation, addEndsFirst), completion, x);
  }

  lemma WorkThenCompletion<C, X>(work: seq<Step<C, X>>, completion: seq<X>, x: X)
    requires NoActions(work)
    ensures var s := work + Runs(completion);
            && |s| == |work| + |completion|
            && (forall i :: 0 <= i < |work| ==> !s[i].Ran?)
            && (forall i :: |work| <= i < |s| ==> s[i] == Ran(completion[i - |work|]))
            && Count(s, Ran(x)) == Count(completion, x)
  {
    RunsAreTheActions<C, X>(completion);
    RunsCount<C, X>(completion, x);
    CountAppend(work, Runs<C, X>(completion), Ran(x));
    assert forall i :: 0 <= i < |work| ==> work[i] != Ran(x);
  }

  /** A closure's invocation holds nothing but its actions. */
  lemma RunsHoldOnlyActions<C, X>(actions: seq<X>, step: Step<C, X>)
    requires !step.Ran?
    ensures step !in Runs<C, X>(actions)
  {
    RunsAreTheActions<C, X>(actions);
  }

  /** The steps `removeChild` and `addChild` can perform on `c`. */
  ghost predicate IsRemovalOf<C, X>(c: C, step: Step<C, X>)
  {
    || step == WillMoveToNil(c) || step == RemoveFromSuperview(c) || step == RemoveFromParent(c)
    || (step.EffectBegan? && step.effect == Disappear(c)) || step == EffectEnded(Disappear(c))
  }

  ghost predicate IsAdditionOf<C, X>(c: C, step: Step<C, X>)
  {
    || step == AddChildViewController(c) || step == AddSubview(c) || step == DidMoveToParent(c)
    || (step.EffectBegan? && step.effect == Appear(c)) || step == EffectEnded(Appear(c))
  }

  /** A step that is neither part of removing `c` nor a completion action
      does not occur in a removal of `c` followed by a completion. */
  lemma OutsideRemoval<C, X>(c: C, options: Option<AnimationOptions>, completion: seq<X>, step: Step<C, X>)
    requires !IsRemovalOf(c, step) && !step.Ran?
    ensures step !in RemoveSteps<C, X>(c, options) + Runs(completion)
  {
    RunsHoldOnlyActions(completion, step);
  }

  lemma OutsideAddition<C, X>(c: C, options: Option<AnimationOptions>, completion: seq<X>, step: Step<C, X>)
    requires !IsAdditionOf(c, step) && !step.Ran?
    ensures step !in AddSteps<C, X>(c, options) + Runs(completion)
  {
    RunsHoldOnlyActions(completion, step);
  }

  // ----- addChild and removeChild -----

  /** `addChild` registers the child before hosting its view, and hosts the
      view before announcing `didMove`; when animated, the view is hosted
      inside the effect, and `didMove` waits for the effect to finish. */
  lemma AddOrder<C, X>(c: C, options: Option<AnimationOptions>)
    ensures Precedes(AddSteps<C, X>(c, options), AddChildViewController(c), AddSubview(c))
    ensures Precedes(AddSteps<C, X>(c, options), AddSubview(c), DidMoveToParent(c))
    ensures options.Some? ==>
              && Precedes(AddSteps<C, X>(c, options), EffectBegan(Appear(c), options.value), AddSubview(c))
              && Precedes(AddSteps<C, X>(c, options), EffectEnded(Appear(c)), DidMoveToParent(c))
  {
    match options {
      case None => PlainAddOrder<C, X>(c);
      case Some(o) => AnimatedAddOrder<C, X>(c, o);
    }
  }

  lemma PlainAddOrder<C, X>(c: C)
    ensures var s := AddSteps<C, X>(c, None);
            Precedes(s, AddChildViewController(c), AddSubview(c)) && Precedes(s, AddSubview(c), DidMoveToParent(c))
  {
    var registering: seq<Step<C, X>> := [AddChildViewController(c)];
    var hosting: seq<Step<C, X>> := [AddSubview(c)];
    var moved: seq<Step<C, X>> := [DidMoveToParent(c)];
    assert AddSteps<C, X>(c, None) == registering + hosting + moved;
    AppendAssoc(registering, hosting, moved);
    PrecedesAcross(registering, hosting + moved, AddChildViewController(c), AddSubview(c));
    PrecedesAcross(registering + hosting, moved, AddSubview(c), DidMoveToParent(c));
  }

  lemma AnimatedAddOrder<C, X>(c: C, o: AnimationOptions)
    ensures var s := AddSteps<C, X>(c, Some(o));
            && Precedes(s, AddChildViewController(c), AddSubview(c)) && Precedes(s, AddSubview(c), DidMoveToParent(c))
            && Precedes(s, EffectBegan(Appear(c), o), AddSubview(c))
            && Precedes(s, EffectEnded(Appear(c)), DidMoveToParent(c))
  {
    var registering: seq<Step<C, X>> := [AddChildViewController(c), EffectBegan(Appear(c), o)];
    var hosting: seq<Step<C, X>> := [AddSubview(c)];
    var ended: seq<Step<C, X>> := [EffectEnded(Appear(c))];
    var moved: seq<Step<C, X>> := [DidMoveToParent(c)];
    assert AddSteps<C, X>(c, Some(o)) == registering + hosting + ended + moved;
    AppendAssoc(registering, hosting, ended + moved);
    AppendAssoc(registering + hosting, ended, moved);
    PrecedesAcross(registering, hosting + ended + moved, AddChildViewController(c), AddSubview(c));
    PrecedesAcross(registering, hosting + ended + moved, EffectBegan(Appear(c), o), AddSubview(c));
    PrecedesAcross(registering + hosting, ended + moved, AddSubview(c), DidMoveToParent(c));
    PrecedesAcross(registering + hosting + ended, moved, EffectEnded(Appear(c)), DidMoveToParent(c));
  }

  /** `removeChild` announces `willMove(nil)` before anything else, and
      detaches the view before removing the child; when animated, the view
      is detached inside the effect, and the child is removed only once the
      effect has finished. */
  lemma RemoveOrder<C, X>(c: C, options: Option<AnimationOptions>)
    ensures RemoveSteps<C, X>(c, options)[0] == WillMoveToNil(c)
    ensures Precedes(RemoveSteps<C, X>(c, options), WillMoveToNil(c), RemoveFromSuperview(c))
    ensures Precedes(RemoveSteps<C, X>(c, options), RemoveFromSuperview(c), RemoveFromParent(c))
    ensures options.Some? ==>
              && Precedes(RemoveSteps<C, X>(c, options), EffectBegan(Disappear(c), options.value), RemoveFromSuperview(c))
              && Precedes(RemoveSteps<C, X>(c, options), EffectEnded(Disappear(c)), RemoveFromParent(c))
  {
    match options {
      case None => PlainRemoveOrder<C, X>(c);
      case Some(o) =>
        AnimatedRemoveOrder<C, X>(c, o);
        AnimatedRemoveEffectOrder<C, X>(c, o);
    }
  }

  lemma PlainRemoveOrder<C, X>(c: C)
    ensures var s := RemoveSteps<C, X>(c, None);
            && s[0] == WillMoveToNil(c)
            && Precedes(s, WillMoveToNil(c), RemoveFromSuperview(c))
            && Precedes(s, RemoveFromSuperview(c), RemoveFromParent(c))
  {
    var announcing: seq<Step<C, X>> := [WillMoveToNil(c)];
    var detaching: seq<Step<C, X>> := [RemoveFromSuperview(c)];
    var removed: seq<Step<C, X>> := [RemoveFromParent(c)];
    assert RemoveSteps<C, X>(c, None) == announcing + detaching + removed;
    AppendAssoc(announcing, detaching, removed);
    PrecedesAcross(announcing, detaching + removed, WillMoveToNil(c), RemoveFromSuperview(c));
    PrecedesAcross(announcing + detaching, removed, RemoveFromSuperview(c), RemoveFromParent(c));
  }

  lemma AnimatedRemoveOrder<C, X>(c: C, o: AnimationOptions)
    ensures var s := RemoveSteps<C, X>(c, Some(o));
            && s[0] == WillMoveToNil(c)
            && Precedes(s, WillMoveToNil(c), RemoveFromSuperview(c))
            && Precedes(s, RemoveFromSuperview(c), RemoveFromParent(c))
  {
    var announcing: seq<Step<C, X>> := [WillMoveToNil(c), EffectBegan(Disappear(c), o)];
    var detaching: seq<Step<C, X>> := [RemoveFromSuperview(c)];
    var removed: seq<Step<C, X>> := [EffectEnded(Disappear(c)), RemoveFromParent(c)];
    assert RemoveSteps<C, X>(c, Some(o)) == announcing + detaching + removed;
    AppendAssoc(announcing, detaching, removed);
    PrecedesAcross(announcing, detaching + removed, WillMoveToNil(c), RemoveFromSuperview(c));
    PrecedesAcross(announcing + detaching, removed, RemoveFromSuperview(c), RemoveFromParent(c));
  }

  lemma AnimatedRemoveEffectOrder<C, X>(c: C, o: AnimationOptions)
    ensures var s := RemoveSteps<C, X>(c, Some(o));
            && Precedes(s, EffectBegan(Disappear(c), o), RemoveFromSuperview(c))
            && Precedes(s, EffectEnded(Disappear(c)), RemoveFromParent(c))
  {
    var announcing: seq<Step<C, X>> := [WillMoveToNil(c), EffectBegan(Disappear(c), o)];
    var detaching: seq<Step<C, X>> := [RemoveFromSuperview(c), EffectEnded(Disappear(c))];
    var removed: seq<Step<C, X>> := [RemoveFromParent(c)];
    assert RemoveSteps<C, X>(c, Some(o)) == announcing + detaching + removed;
    AppendAssoc(announcing, detaching, removed);
    PrecedesAcross(announcing, detaching + removed, EffectBegan(Disappear(c), o), RemoveFromSuperview(c));
    PrecedesAcross(announcing + detaching, removed, EffectEnded(Disappear(c)), RemoveFromParent(c));
  }

  /** With or without options, `addChild` and `removeChild` run their
      completion exactly once, after their own steps; without options
      nothing is left for an animation to finish, so all of it happens
      before they return. */
  lemma AddAndRemoveCompleteOnce<C, X>(c: C, options: Option<AnimationOptions>, completion: seq<X>, x: X)
    ensures Count(AddSteps<C, X>(c, options) + Runs(completion), Ran(x)) == Count(completion, x)
    ensures Count(RemoveSteps<C, X>(c, options) + Runs(completion), Ran(x)) == Count(completion, x)
    ensures options.None? ==> AddSteps<C, X>(c, options) == AddStartSteps(c, options)
                              && RemoveSteps<C, X>(c, options) == RemoveStartSteps(c, options)
  {
    RunsCount<C, X>(completion, x);
    CountAppend(AddSteps<C, X>(c, options), Runs(completion), Ran(x));
    CountAppend(RemoveSteps<C, X>(c, options), Runs(completion), Ran(x));
    StagesRunNothing<C, X>(c, options);
    assert forall i :: 0 <= i < |AddSteps<C, X>(c, options)| ==> AddSteps<C, X>(c, options)[i] != Ran(x);
    assert forall i :: 0 <= i < |RemoveSteps<C, X>(c, options)| ==> RemoveSteps<C, X>(c, options)[i] != Ran(x);
  }

  // ----- replaceChild, one animation at a time -----

  /** No animation: the old child is fully removed before the new child is
      registered. */
  lemma ReplaceWithoutAnimationOrder<C, X>(oldChild: C, newChild: C, addEndsFirst: bool, completion: seq<X>)
    ensures Precedes(ReplaceSteps(oldChild, newChild, None, addEndsFirst, completion),
                     RemoveFromParent(oldChild), AddChildViewController(newChild))
  {
    var r := RemoveSteps<C, X>(oldChild, None);
    var rest := AddSteps<C, X>(newChild, None) + Runs(completion);
    RunsHoldOnlyActions<C, X>(completion, RemoveFromParent(oldChild));
    ReplaceShapes<C, X>([], [], oldChild, newChild, None, addEndsFirst, completion);
    AppendAssoc(r, AddSteps<C, X>(newChild, None), Runs<C, X>(completion));
    PrecedesAcross(r, rest, RemoveFromParent(oldChild), AddChildViewController(newChild));
  }

  /** `.appearOverPrevious`: the new child's addition, including the end of
      its effect, is complete before the old child is told it will move. */
  lemma OverPreviousOrder<C, X>(oldChild: C, newChild: C, onAppear: Option<AnimationOptions>,
                                addEndsFirst: bool, completion: seq<X>)
    ensures var s := ReplaceSteps(oldChild, newChild, Some(AppearOverPrevious(onAppear)), addEndsFirst, completion);
            && Precedes(s, DidMoveToParent(newChild), WillMoveToNil(oldChild))
            && (onAppear.Some? ==> Precedes(s, EffectEnded(Appear(newChild)), WillMoveToNil(oldChild)))
  {
    var a := AddSteps<C, X>(newChild, onAppear);
    var rest := RemoveSteps<C, X>(oldChild, None) + Runs(completion);
    RunsHoldOnlyActions<C, X>(completion, DidMoveToParent(newChild));
    RunsHoldOnlyActions<C, X>(completion, EffectEnded(Appear(newChild)));
    ReplaceShapes<C, X>([], [], oldChild, newChild, Some(AppearOverPrevious(onAppear)), addEndsFirst, completion);
    AppendAssoc(a, RemoveSteps<C, X>(oldChild, None), Runs<C, X>(completion));
    PrecedesAcross(a, rest, DidMoveToParent(newChild), WillMoveToNil(oldChild));
    if onAppear.Some? {
      PrecedesAcross(a, rest, EffectEnded(Appear(newChild)), WillMoveToNil(oldChild));
    }
  }

  /** `.appearUnderPrevious`: the new child is hidden before its view is
      hosted, sent to the back after that, shown after that, and only then
      is the old child told it will move. */
  lemma UnderPreviousOrder<C, X>(oldChild: C, newChild: C, onRemove: Option<AnimationOptions>,
                                 addEndsFirst: bool, completion: seq<X>)
    ensures var s := ReplaceSteps(oldChild, newChild, Some(AppearUnderPrevious(onRemove)), addEndsFirst, completion);
            && Precedes(s, SetHidden(newChild, true), AddSubview(newChild))
            && Precedes(s, AddSubview(newChild), SendToBack(newChild))
            && Precedes(s, SendToBack(newChild), SetHidden(newChild, false))
            && Precedes(s, SetHidden(newChild, false), WillMoveToNil(oldChild))
  {
    var behind := AddBehindSteps<C, X>(newChild);
    var rest := RemoveSteps<C, X>(oldChild, onRemove) + Runs(completion);
    UnderPreviousShape(oldChild, newChild, onRemove, addEndsFirst, completion);
    AddBehindOrder<C, X>(newChild);
    PrecedesExtended(rest, behind, SetHidden(newChild, true), AddSubview(newChild));
    PrecedesExtended(rest, behind, AddSubview(newChild), SendToBack(newChild));
    PrecedesExtended(rest, behind, SendToBack(newChild), SetHidden(newChild, false));
    PrecedesAcross(behind, rest, SetHidden(newChild, false), WillMoveToNil(oldChild));
  }

  /** `.appearUnderPrevious` is the hidden addition followed by the
      removal, which performs none of the addition's steps. */
  lemma UnderPreviousShape<C, X>(oldChild: C, newChild: C, onRemove: Option<AnimationOptions>,
                                 addEndsFirst: bool, completion: seq<X>)
    ensures var behind := AddBehindSteps<C, X>(newChild);
            var rest := RemoveSteps<C, X>(oldChild, onRemove) + Runs(completion);
            && ReplaceSteps(oldChild, newChild, Some(AppearUnderPrevious(onRemove)), addEndsFirst, completion)
               == behind + rest
            && SetHidden(newChild, true) !in rest && SetHidden(newChild, false) !in rest
            && SendToBack(newChild) !in rest && AddSubview(newChild) !in rest
            && SetHidden(newChild, false) in behind && WillMoveToNil(oldChild) in rest
            && WillMoveToNil(oldChild) !in behind
  {
    var rest := RemoveSteps<C, X>(oldChild, onRemove) + Runs(completion);
    OutsideRemoval<C, X>(oldChild, onRemove, completion, SetHidden(newChild, true));
    OutsideRemoval<C, X>(oldChild, onRemove, completion, SendToBack(newChild));
    OutsideRemoval<C, X>(oldChild, onRemove, completion, SetHidden(newChild, false));
    OutsideRemoval<C, X>(oldChild, onRemove, completion, AddSubview(newChild));
    AppendAssoc(AddBehindSteps<C, X>(newChild), RemoveSteps<C, X>(oldChild, onRemove), Runs<C, X>(completion));
    assert rest[0] == WillMoveToNil(oldChild);
    assert AddBehindSteps<C, X>(newChild) == [SetHidden(newChild, true), AddChildViewController(newChild),
                                               AddSubview(newChild), DidMoveToParent(newChild),
                                               SendToBack(newChild), SetHidden(newChild, false)];
  }

  lemma AddBehindOrder<C, X>(c: C)
    ensures Precedes(AddBehindSteps<C, X>(c), SetHidden(c, true), AddSubview(c))
    ensures Precedes(AddBehindSteps<C, X>(c), AddSubview(c), SendToBack(c))
    ensures Precedes(AddBehindSteps<C, X>(c), SendToBack(c), SetHidden(c, false))
  {
    var hiding: seq<Step<C, X>> := [SetHidden(c, true)];
    var add: seq<Step<C, X>> := [AddChildViewController(c), AddSubview(c)];
    var moved: seq<Step<C, X>> := [DidMoveToParent(c), SendToBack(c)];
    var showing: seq<Step<C, X>> := [SetHidden(c, false)];
    assert AddBehindSteps<C, X>(c) == hiding + add + moved + showing;
    PrecedesAcross(hiding, add + moved + showing, SetHidden(c, true), AddSubview(c));
    AppendAssoc(hiding, add, moved + showing);
    AppendAssoc(hiding + add, moved, showing);
    PrecedesAcross(hiding + add, moved + showing, AddSubview(c), SendToBack(c));
    PrecedesAcross(hiding + add + moved, showing, SendToBack(c), SetHidden(c, false));
  }

  /** Steps that may follow the starting stages of the simultaneous case. */
  ghost predicate Finishing<C, X>(oldChild: C, newChild: C, s: seq<Step<C, X>>)
  {
    forall k :: 0 <= k < |s| ==>
      s[k].EffectEnded? || s[k].Ran? || s[k] == DidMoveToParent(newChild) || s[k] == RemoveFromParent(oldChild)
  }

  ghost predicate NotFinishing<C, X>(s: seq<Step<C, X>>)
  {
    forall k :: 0 <= k < |s| ==> !s[k].EffectEnded?
  }

  lemma FinishingAppend<C, X>(oldChild: C, newChild: C, a: seq<Step<C, X>>, b: seq<Step<C, X>>)
    requires Finishing(oldChild, newChild, a) && Finishing(oldChild, newChild, b)
    ensures Finishing(oldChild, newChild, a + b)
  {
    assert forall k :: |a| <= k < |a + b| ==> (a + b)[k] == b[k - |a|];
  }

  lemma NotFinishingAppend<C, X>(a: seq<Step<C, X>>, b: seq<Step<C, X>>)
    requires NotFinishing(a) && NotFinishing(b)
    ensures NotFinishing(a + b)
  {
    assert forall k :: |a| <= k < |a + b| ==> (a + b)[k] == b[k - |a|];
  }

  /** The stages of the simultaneous case: both starting stages, then the
      finishing stages, then the completion. */
  lemma SimultaneousParts<C, X>(oldChild: C, newChild: C, onAppear: Option<AnimationOptions>,
                                onRemove: Option<AnimationOptions>, addEndsFirst: bool, completion: seq<X>)
    ensures var starts := AddStartSteps<C, X>(newChild, onAppear) + RemoveStartSteps<C, X>(oldChild, onRemove);
            var rest := EndSteps<C, X>(oldChild, newChild, onAppear, onRemove, addEndsFirst) + Runs(completion);
            && ReplaceSteps(oldChild, newChild, Some(AppearAndSimultaneouslyRemove(onAppear, onRemove)),
                            addEndsFirst, completion) == starts + rest
            && WillMoveToNil(oldChild) in starts && AddSubview(newChild) in starts
            && NotFinishing(starts) && Finishing(oldChild, newChild, rest)
  {
    var starts := AddStartSteps<C, X>(newChild, onAppear) + RemoveStartSteps<C, X>(oldChild, onRemove);
    var ends := EndSteps<C, X>(oldChild, newChild, onAppear, onRemove, addEndsFirst);
    StartsNotFinishing<C, X>(oldChild, newChild, onAppear, onRemove);
    EndsFinishing<C, X>(oldChild, newChild, onAppear, onRemove, addEndsFirst);
    RunsAreTheActions<C, X>(completion);
    assert Finishing(oldChild, newChild, Runs<C, X>(completion));
    FinishingAppend(oldChild, newChild, ends, Runs<C, X>(completion));
    AppendAssoc(starts, ends, Runs<C, X>(completion));
  }

  lemma StartsNotFinishing<C, X>(oldChild: C, newChild: C, onAppear: Option<AnimationOptions>,
                                 onRemove: Option<AnimationOptions>)
    ensures var starts := AddStartSteps<C, X>(newChild, onAppear) + RemoveStartSteps<C, X>(oldChild, onRemove);
            WillMoveToNil(oldChild) in starts && AddSubview(newChild) in starts && NotFinishing(starts)
  {
    var addStart := AddStartSteps<C, X>(newChild, onAppear);
    var removeStart := RemoveStartSteps<C, X>(oldChild, onRemove);
    assert (addStart + removeStart)[|addStart|] == WillMoveToNil(oldChild);
    assert addStart[if onAppear.None? then 1 else 2] == AddSubview(newChild);
    assert (addStart + removeStart)[if onAppear.None? then 1 else 2] == AddSubview(newChild);
    assert NotFinishing(addStart) && NotFinishing(removeStart);
    NotFinishingAppend(addStart, removeStart);
  }

  lemma EndsFinishing<C, X>(oldChild: C, newChild: C, onAppear: Option<AnimationOptions>,
                            onRemove: Option<AnimationOptions>, addEndsFirst: bool)
    ensures Finishing(oldChild, newChild, EndSteps<C, X>(oldChild, newChild, onAppear, onRemove, addEndsFirst))
  {
    var addEnd := AddEndSteps<C, X>(newChild, onAppear);
    var removeEnd := RemoveEndSteps<C, X>(oldChild, onRemove);
    assert Finishing(oldChild, newChild, addEnd) && Finishing(oldChild, newChild, removeEnd);
    if addEndsFirst {
      FinishingAppend(oldChild, newChild, addEnd, removeEnd);
    } else {
      FinishingAppend(oldChild, newChild, removeEnd, addEnd);
    }
  }

  /** `.appearAndSimultaneouslyRemove`: every effect begins before any
      effect ends, so both operations are under way before either
      finishes. */
  lemma SimultaneousBeginsBeforeEnds<C, X>(oldChild: C, newChild: C, onAppear: Option<AnimationOptions>,
                                           onRemove: Option<AnimationOptions>, addEndsFirst: bool,
                                           completion: seq<X>)
    ensures var s := ReplaceSteps(oldChild, newChild, Some(AppearAndSimultaneouslyRemove(onAppear, onRemove)),
                                  addEndsFirst, completion);
            forall i, j :: 0 <= i < |s| && 0 <= j < |s| && s[i].EffectBegan? && s[j].EffectEnded? ==> i < j
  {
    SimultaneousParts(oldChild, newChild, onAppear, onRemove, addEndsFirst, completion);
  }

  /** `.appearAndSimultaneouslyRemove`: the removal has begun before the
      addition's effect ends, and the new view is hosted before the
      removal's effect ends. */
  lemma SimultaneousOverlap<C, X>(oldChild: C, newChild: C, onAppear: Option<AnimationOptions>,
                                  onRemove: Option<AnimationOptions>, addEndsFirst: bool, completion: seq<X>)
    ensures var s := ReplaceSteps(oldChild, newChild, Some(AppearAndSimultaneouslyRemove(onAppear, onRemove)),
                                  addEndsFirst, completion);
            && (onAppear.Some? ==> Precedes(s, WillMoveToNil(oldChild), EffectEnded(Appear(newChild))))
            && (onRemove.Some? ==> Precedes(s, AddSubview(newChild), EffectEnded(Disappear(oldChild))))
  {
    var starts := AddStartSteps<C, X>(newChild, onAppear) + RemoveStartSteps<C, X>(oldChild, onRemove);
    var rest := EndSteps<C, X>(oldChild, newChild, onAppear, onRemove, addEndsFirst) + Runs(completion);
    SimultaneousParts(oldChild, newChild, onAppear, onRemove, addEndsFirst, completion);
    RunsHoldOnlyActions<C, X>(completion, EffectEnded(Appear(newChild)));
    RunsHoldOnlyActions<C, X>(completion, EffectEnded(Disappear(oldChild)));
    if onAppear.Some? {
      assert EffectEnded(Appear(newChild)) in AddEndSteps<C, X>(newChild, onAppear);
      PrecedesAcross(starts, rest, WillMoveToNil(oldChild), EffectEnded(Appear(newChild)));
    }
    if onRemove.Some? {
      assert EffectEnded(Disappear(oldChild)) in RemoveEndSteps<C, X>(oldChild, onRemove);
      PrecedesAcross(starts, rest, AddSubview(newChild), EffectEnded(Disappear(oldChild)));
    }
  }

  /** `.appearAndSimultaneouslyRemove`: the finishing stages come in the
      order the animation engine reports them. */
  lemma SimultaneousEndsInReportOrder<C, X>(oldChild: C, newChild: C, onAppear: AnimationOptions,
                                            onRemove: AnimationOptions, addEndsFirst: bool, completion: seq<X>)
    ensures var s := ReplaceSteps(oldChild, newChild, Some(AppearAndSimultaneouslyRemove(Some(onAppear), Some(onRemove))),
                                  addEndsFirst, completion);
            && (addEndsFirst ==> Precedes(s, EffectEnded(Appear(newChild)), EffectEnded(Disappear(oldChild))))
            && (!addEndsFirst ==> Precedes(s, EffectEnded(Disappear(oldChild)), EffectEnded(Appear(newChild))))
  {
    var starts := AddStartSteps<C, X>(newChild, Some(onAppear)) + RemoveStartSteps<C, X>(oldChild, Some(onRemove));
    var ends := EndSteps<C, X>(oldChild, newChild, Some(onAppear), Some(onRemove), addEndsFirst);
    var runs := Runs<C, X>(completion);
    var appeared: Step<C, X> := EffectEnded(Appear(newChild));
    var disappeared: Step<C, X> := EffectEnded(Disappear(oldChild));
    SimultaneousParts(oldChild, newChild, Some(onAppear), Some(onRemove), addEndsFirst, completion);
    RunsHoldOnlyActions<C, X>(completion, appeared);
    RunsHoldOnlyActions<C, X>(completion, disappeared);
    var addEnd := AddEndSteps<C, X>(newChild, Some(onAppear));
    var removeEnd := RemoveEndSteps<C, X>(oldChild, Some(onRemove));
    if addEndsFirst {
      PrecedesAcross(addEnd, removeEnd, appeared, disappeared);
      PrecedesExtended(runs, ends, appeared, disappeared);
      PrecedesExtended(starts, ends + runs, appeared, disappeared);
    } else {
      PrecedesAcross(removeEnd, addEnd, disappeared, appeared);
      PrecedesExtended(runs, ends, disappeared, appeared);
      PrecedesExtended(starts, ends + runs, disappeared, appeared);
    }
  }

  /** `.removePreviousThenAppear`: the old child is fully removed, including
      the end of its effect, before the new child is registered. */
  lemma RemovePreviousThenAppearOrder<C, X>(oldChild: C, newChild: C, onRemove: Option<AnimationOptions>,
                                            onAppear: Option<AnimationOptions>, addEndsFirst: bool,
                                            completion: seq<X>)
    ensures var s := ReplaceSteps(oldChild, newChild, Some(RemovePreviousThenAppear(onRemove, onAppear)),
                                  addEndsFirst, completion);
            && Precedes(s, RemoveFromParent(oldChild), AddChildViewController(newChild))
            && (onRemove.Some? ==> Precedes(s, EffectEnded(Disappear(oldChild)), AddChildViewController(newChild)))
  {
    var r := RemoveSteps<C, X>(oldChild, onRemove);
    var rest := AddSteps<C, X>(newChild, onAppear) + Runs(completion);
    OutsideAddition<C, X>(newChild, onAppear, completion, RemoveFromParent(oldChild));
    OutsideAddition<C, X>(newChild, onAppear, completion, EffectEnded(Disappear(oldChild)));
    assert rest[0] == AddChildViewController(newChild);
    assert r[|r| - 1] == RemoveFromParent(oldChild);
    ReplaceShapes<C, X>([], [], oldChild, newChild, Some(RemovePreviousThenAppear(onRemove, onAppear)),
                        addEndsFirst, completion);
    AppendAssoc(r, AddSteps<C, X>(newChild, onAppear), Runs<C, X>(completion));
    PrecedesAcross(r, rest, RemoveFromParent(oldChild), AddChildViewController(newChild));
    if onRemove.Some? {
      PrecedesAcross(r, rest, EffectEnded(Disappear(oldChild)), AddChildViewController(newChild));
    }
  }

  // ----- which effects run -----

  /** The options the new child appears with, and the old child disappears
      with, under an optional animation. */
  function AppearsWith(animation: Option<StateTransitionAnimation>): Option<AnimationOptions>
  {
    if animation.None? then None else AdditionOptions(animation.value)
  }

  function DisappearsWith(animation: Option<StateTransitionAnimation>): Option<AnimationOptions>
  {
    if animation.None? then None else RemovalOptions(animation.value)
  }

  lemma EffectsOfStages<C, X>(c: C, d: C, options: Option<AnimationOptions>, opts: AnimationOptions)
    ensures EffectBegan(Appear(c), opts) in AddSteps<C, X>(c, options) <==> options == Some(opts)
    ensures EffectBegan(Appear(c), opts) in AddStartSteps<C, X>(c, options) <==> options == Some(opts)
    ensures EffectBegan(Disappear(c), opts) in RemoveSteps<C, X>(c, options) <==> options == Some(opts)
    ensures EffectBegan(Disappear(c), opts) in RemoveStartSteps<C, X>(c, options) <==> options == Some(opts)
    ensures EffectBegan(Disappear(d), opts) !in AddSteps<C, X>(c, options)
    ensures EffectBegan(Appear(d), opts) !in RemoveSteps<C, X>(c, options)
    ensures forall e :: EffectBegan(e, opts) !in AddEndSteps<C, X>(c, options) + RemoveEndSteps<C, X>(d, options)
  {
  }

  /** `replaceChild` animates the new child's appearance exactly with the
      animation's `additionOptions` and the old child's disappearance exactly
      with its `removalOptions`; with no animation, nothing is animated. */
  lemma EffectsFollowProjections<C, X>(oldChild: C, newChild: C, animation: Option<StateTransitionAnimation>,
                                       addEndsFirst: bool, completion: seq<X>, opts: AnimationOptions)
    ensures var s := ReplaceSteps(oldChild, newChild, animation, addEndsFirst, completion);
            && (EffectBegan(Appear(newChild), opts) in s <==> AppearsWith(animation) == Some(opts))
            && (EffectBegan(Disappear(oldChild), opts) in s <==> DisappearsWith(animation) == Some(opts))
  {
    var appear: Step<C, X> := EffectBegan(Appear(newChild), opts);
    var disappear: Step<C, X> := EffectBegan(Disappear(oldChild), opts);
    RunsHoldOnlyActions(completion, appear);
    RunsHoldOnlyActions(completion, disappear);
    match animation {
      case None =>
        EffectsOfStages<C, X>(newChild, oldChild, None, opts);
        EffectsOfStages<C, X>(oldChild, newChild, None, opts);
      case Some(AppearOverPrevious(onAppear)) =>
        EffectsOfStages<C, X>(newChild, oldChild, onAppear, opts);
        EffectsOfStages<C, X>(oldChild, newChild, None, opts);
      case Some(AppearUnderPrevious(onRemove)) =>
        EffectsOfStages<C, X>(newChild, oldChild, None, opts);
        EffectsOfStages<C, X>(oldChild, newChild, onRemove, opts);
        assert AddBehindSteps<C, X>(newChild)
            == [SetHidden(newChild, true)] + AddSteps(newChild, None) + [SendToBack(newChild), SetHidden(newChild, false)];
      case Some(AppearAndSimultaneouslyRemove(onAppear, onRemove)) =>
        EffectsOfStages<C, X>(newChild, oldChild, onAppear, opts);
        EffectsOfStages<C, X>(oldChild, newChild, onRemove, opts);
        assert appear !in EndSteps<C, X>(oldChild, newChild, onAppear, onRemove, addEndsFirst);
        assert disappear !in EndSteps<C, X>(oldChild, newChild, onAppear, onRemove, addEndsFirst);
      case Some(RemovePreviousThenAppear(onRemove, onAppear)) =>
        EffectsOfStages<C, X>(newChild, oldChild, onAppear, opts);
        EffectsOfStages<C, X>(oldChild, newChild, onRemove, opts);
    }
  }

  // ----- the resulting children and subviews -----

  lemma WithoutTwice<T>(s: seq<T>, x: T)
    ensures Without(Without(s, x), x) == Without(s, x)
  {
    InWithout(s, x, x);
    WithoutAbsent(Without(s, x), x);
  }

  /** Whatever the animation, replacing one child by a different one leaves
      the other children in their order, without the old child, with the new
      child last and present once. */
  lemma ReplacedChildrenOutcome<C>(children: seq<C>, oldChild: C, newChild: C,
                                   animation: Option<StateTransitionAnimation>, other: C)
    requires oldChild != newChild
    ensures ReplacedChildren(children, oldChild, newChild, animation) == Without(Without(children, oldChild), newChild) + [newChild]
    ensures newChild in ReplacedChildren(children, oldChild, newChild, animation)
    ensures oldChild !in ReplacedChildren(children, oldChild, newChild, animation)
    ensures Count(ReplacedChildren(children, oldChild, newChild, animation), newChild) == 1
    ensures other != oldChild && other != newChild ==>
              (other in ReplacedChildren(children, oldChild, newChild, animation) <==> other in children)
  {
    var rest := Without(Without(children, oldChild), newChild);
    if AddsFirst(animation) {
      WithoutAppend(Without(children, newChild), [newChild], oldChild);
      assert Without([newChild], oldChild) == [newChild];
      WithoutCommutes(children, newChild, oldChild);
    }
    assert ReplacedChildren(children, oldChild, newChild, animation) == rest + [newChild];
    InWithout(children, oldChild, other);
    InWithout(Without(children, oldChild), newChild, other);
    InWithout(children, oldChild, oldChild);
    InWithout(Without(children, oldChild), newChild, oldChild);
    InWithout(Without(children, oldChild), newChild, newChild);
    CountAppend(rest, [newChild], newChild);
  }

  /** The container's subviews after replacing one child by a different one:
      under `.appearUnderPrevious` the new view is at the back, otherwise at
      the front; the other views keep their order and the old view is
      gone. */
  lemma ReplacedSubviewsOutcome<C>(subviews: seq<C>, oldChild: C, newChild: C,
                                   animation: Option<StateTransitionAnimation>)
    requires oldChild != newChild
    ensures animation.Some? && animation.value.AppearUnderPrevious? ==>
              ReplacedSubviews(subviews, oldChild, newChild, animation)
              == [newChild] + Without(Without(subviews, oldChild), newChild)
    ensures !(animation.Some? && animation.value.AppearUnderPrevious?) ==>
              ReplacedSubviews(subviews, oldChild, newChild, animation)
              == Without(Without(subviews, oldChild), newChild) + [newChild]
    ensures newChild in ReplacedSubviews(subviews, oldChild, newChild, animation)
    ensures oldChild !in ReplacedSubviews(subviews, oldChild, newChild, animation)
  {
    if animation.Some? && animation.value.AppearUnderPrevious? {
      var added := Added(subviews, newChild);
      InAdded(subviews, newChild, newChild);
      WithoutAppend(Without(subviews, newChild), [newChild], newChild);
      assert Without([newChild], newChild) == [];
      WithoutTwice(subviews, newChild);
      assert Without(added, newChild) == Without(subviews, newChild);
      WithoutAppend([newChild], Without(subviews, newChild), oldChild);
      assert Without([newChild], oldChild) == [newChild];
      WithoutCommutes(subviews, newChild, oldChild);
      InWithout(Without(subviews, oldChild), newChild, oldChild);
      InWithout(subviews, oldChild, oldChild);
    } else {
      ReplacedChildrenOutcome(subviews, oldChild, newChild, animation, newChild);
    }
  }

  /** Replacing a child by itself removes it under every animation that adds
      before it removes, and keeps it (moved to the end) otherwise. */
  lemma ReplaceWithItself<C>(children: seq<C>, c: C, animation: Option<StateTransitionAnimation>)
    ensures AddsFirst(animation) ==> c !in ReplacedChildren(children, c, c, animation)
    ensures !AddsFirst(animation) ==> ReplacedChildren(children, c, c, animation) == Added(Without(children, c), c)
    ensures !AddsFirst(animation) ==> c in ReplacedChildren(children, c, c, animation)
  {
    InWithout(Added(children, c), c, c);
  }
}
