# Reinstate, modelled in Dafny

Reinstate is a small UIKit library. A container view controller shows child view
controllers chosen by a state value, and moves between them when the state changes.
This project models its transition engine over abstract child handles: a type parameter
`C` with equality, which stands for object identity. States are a type parameter `S` with
value equality.

- **Child containment.** `addChild`, `removeChild` and `replaceChild` are methods of a
  `Parent` class. Its fields are:
  - the parent's child list;
  - its container's subviews, back to front;
  - the set of hidden views;
  - a `trace` of every primitive UIKit call, in order.

  An animated step is split into:
  - what runs when the animation is issued;
  - what runs when the animation engine reports that it finished.

  A completion closure is the sequence of its actions. Invoking it appends `Ran` steps to
  the trace.
- **Engines.** The three containers are classes that own their parent, navigation
  controller or tab bar:
  - the single-slot `StatefulViewController`;
  - the stack `StatefulNavigationController`;
  - the fixed-set `StatefulTabBarController`.

  The subclass hooks are function fields:
  - `childViewController(for:)`;
  - `transitionAnimation(from:to:)`;
  - `shouldPopToViewController(from:to:)`.

  The stack engine's bookkeeping (`statesInNavigationStack`, `state`) is changed by the
  closures it hands to the navigation controller. Those closures are also sequences of
  actions, and running them is a fold (`NavigationBookkeeping.ApplyAll`).
- **Revisions.** The repository ships older revisions of every engine and of the
  containment helpers. Each revision is its own module:

  | revision | single slot | stack | fixed set | containment |
  |---|---|---|---|---|
  | current: `Source/Public/Containers/`, `Source/Public/Children/` | `CurrentSlot` | `CurrentStack` | `CurrentTabs` | `Containment` |
  | `Source/Public/Stateful/` | `StatefulSlot` | `StatefulStack` | `StatefulTabs` | — |
  | oldest: `Source/Public/`, `Public/` | `EarlySlot` | `EarlyStack` | `EarlyTabs` | `LegacyContainment` |

- **Shared modules.**
  - `Animation`: animation cases and their projections.
  - `Closures`: `insert(_:before:)`.
  - `Hierarchy`: `containsInHierarchy`.
  - `SlotActions` and `NavigationBookkeeping`: what the engines' closures do.
  - `TabItems`: item lookup.
  - `ContainmentProperties`: ordering and exactly-once facts about the containment steps.
- **UIKit.** UIKit itself is not part of this model. `UIKitStacks` states the behaviour
  the engines rely on:
  - `popToViewController` keeps the stack up to the first occurrence of the controller;
  - pushing a controller already on the stack raises an exception;
  - a tab bar selects its first controller when it is given its controllers. The model
    ignores a selection of a controller that is not one of them; UIKit raises an
    exception there.

`fatalError` and `preconditionFailure` become an `Outcome` of `Fatal`, with nothing after
them happening. `assertionFailure` is modelled as in a release build, where the call
returns. `removeChild`'s `assert` that the controller is a child becomes a `requires`.
The two are treated differently because of what follows them. After `assertionFailure` the
engine returns at once, so a release build does something definite. After `removeChild`'s
`assert`, a release build goes on to call `willMove(toParent: nil)` and
`removeFromParent()` on a controller that is not a child. What UIKit does then is not
part of this model.

Three things the library leaves to the caller are parameters of the model:
- the order in which the animation engine reports two simultaneous effects (`addEndsFirst`);
- the navigation controller's depth reports (`DidUpdateStackCount`);
- whether a transition is animated.

A transition of the single-slot engine to the state it is already in:
- the current and `Stateful/` engines run only the completion
  (`Source/Public/Containers/StatefulViewController.swift:79-83`,
  `Source/Public/Stateful/StatefulViewController.swift:47-51`);
- the oldest protocol-based engine returns without running it
  (`Source/Public/StatefulViewController.swift:48-51`).

## Model

| member | source | states |
|---|---|---|
| Animation.AdditionOptions | Source/Public/StateTransitionAnimation.swift:18-25 | `additionOptions` is the case's own `onAppear`; `.appearUnderPrevious` has none |
| Animation.RemovalOptions | Source/Public/StateTransitionAnimation.swift:27-34 | `removalOptions` is the case's own `onRemove`; `.appearOverPrevious` has none |
| Animation.ProjectionsRoundTrip | Source/Public/StateTransitionAnimation.swift:11-34 | the case together with the two projections gives the animation back, so the projections lose nothing |
| Animation.ProjectionsOfBuilt | Source/Public/StateTransitionAnimation.swift:18-34 | building a case from two options and projecting returns each option the case carries, and nothing for the one it does not carry |
| Closures.Insert | Source/Utility/Closures+Insert.swift:8-13 | the composed closure is never absent; it runs `newCompletion` first, then `oldCompletion` when present, and only `newCompletion` when it is absent |
| Closures.InsertRunsEachPartOnce | Source/Utility/Closures+Insert.swift:9-12 | one invocation performs each effect exactly as often as the two parts together do |
| Closures.InsertNests | Source/Utility/Closures+Insert.swift:8-13 | `insert(a, before: insert(b, before: c))` runs a, b, c in that order and equals `insert(insert(a, before: b), before: c)` |
| Hierarchy.ContainsItself | Utility/UIView+ContainsInHierarchy.swift:13-15 | a view contains itself |
| Hierarchy.ContainsDirectSubview | Utility/UIView+ContainsInHierarchy.swift:16-19 | a view contains each of its direct subviews |
| Hierarchy.ContainsNestedSubview | Utility/UIView+ContainsInHierarchy.swift:16-19 | a view contains a subview of one of its subviews |
| Hierarchy.ContainsTransitive | Utility/UIView+ContainsInHierarchy.swift:12-22 | if a contains b and b contains c, then a contains c |
| Hierarchy.ContainedViewsAreInTree | Utility/UIView+ContainsInHierarchy.swift:12-22 | a contained view is one of the views of the tree |
| Hierarchy.UnrelatedViewIsNotContained | Utility/UIView+ContainsInHierarchy.swift:21 | a view that appears nowhere in the tree is not contained |
| Hierarchy.ContainsInHierarchy | Utility/UIView+ContainsInHierarchy.swift:12-22 | reference definition of `containsInHierarchy`: the view itself, or a view contained in one of its subviews |
| Containment.Parent.AddStart | Source/Public/Children/UIViewController+ChildViewControllers.swift:40-50 | registers the child, then hosts its view (inside the effect when animated); the child is last in both lists |
| Containment.Parent.AddEnd | Source/Public/Children/UIViewController+ChildViewControllers.swift:51-54 | the end of an animated addition announces `didMove` and changes no list |
| Containment.Parent.RemoveStart | Source/Public/Children/UIViewController+ChildViewControllers.swift:88-98 | needs the child; announces `willMove(nil)`, detaches the view, and without animation also removes the child |
| Containment.Parent.RemoveEnd | Source/Public/Children/UIViewController+ChildViewControllers.swift:99-102 | the end of an animated removal removes the child from the parent |
| Containment.Parent.Run | Source/Public/Children/UIViewController+ChildViewControllers.swift:46 | invoking a completion appends exactly its actions to the trace, in order, and changes no child, subview or hidden flag |
| Containment.Parent.AddChild | Source/Public/Children/UIViewController+ChildViewControllers.swift:36-56 | the child is added last to the child list and the subviews, and the completion runs after the addition's steps |
| Containment.Parent.RemoveChild | Source/Public/Children/UIViewController+ChildViewControllers.swift:84-104 | needs a current child; afterwards it is in neither list, and the completion runs after the removal's steps |
| Containment.Parent.ReplaceChild | Source/Public/Children/UIViewController+ChildViewControllers.swift:137-177 | the child list, subviews, hidden flags and trace after each of the five branches |
| Containment.Parent.ReplaceWithoutAnimation | Source/Public/Children/UIViewController+ChildViewControllers.swift:143-146 | removes the old child, adds the new one, then runs the completion |
| Containment.Parent.ReplaceOverPrevious | Source/Public/Children/UIViewController+ChildViewControllers.swift:147-150 | adds the new child with `onAppear`; its completion removes the old child without animation and runs the caller's completion |
| Containment.Parent.AddBehind | Source/Public/Children/UIViewController+ChildViewControllers.swift:152-155 | the new view is hidden, added, sent to the back and shown |
| Containment.Parent.ReplaceUnderPrevious | Source/Public/Children/UIViewController+ChildViewControllers.swift:151-158 | the hidden addition behind the old view, then the removal of the old child with `onRemove` and the caller's completion |
| Containment.Parent.DeliverEffectEnds | Source/Public/Children/UIViewController+ChildViewControllers.swift:162-168 | each animated operation reports its end once, in the engine's order; the count of reports is the number of animated operations |
| Containment.Parent.ReplaceSimultaneously | Source/Public/Children/UIViewController+ChildViewControllers.swift:159-171 | both starting stages, then the finishing stages in the engine's order, then the completion; in the body the dispatch group's count is zero when `notify` runs it |
| Containment.Parent.ReplaceRemovingFirst | Source/Public/Children/UIViewController+ChildViewControllers.swift:172-175 | removes the old child with `onRemove`; its completion adds the new one with `onAppear` and the caller's completion |
| Containment.AddSteps | Source/Public/Children/UIViewController+ChildViewControllers.swift:36-56 | reference definition of the steps of `addChild`: its starting stage, then its finishing stage |
| Containment.RemoveSteps | Source/Public/Children/UIViewController+ChildViewControllers.swift:84-104 | reference definition of the steps of `removeChild`: its starting stage, then its finishing stage |
| Containment.ReplaceSteps | Source/Public/Children/UIViewController+ChildViewControllers.swift:137-177 | reference definition of the steps of `replaceChild`: the structural work of the animation case, then the completion |
| Containment.ReplacedChildren | Source/Public/Children/UIViewController+ChildViewControllers.swift:137-177 | reference definition of the child list after `replaceChild`: the new child added then the old one removed in the cases that add first, the other way round otherwise |
| Containment.ReplacedSubviews | Source/Public/Children/UIViewController+ChildViewControllers.swift:137-177 | reference definition of the subviews after `replaceChild`: as the child list, except that `.appearUnderPrevious` sends the new view to the back |
| ContainmentProperties.RunsAreTheActions | Source/Public/Children/UIViewController+ChildViewControllers.swift:46 | invoking a closure records exactly its actions, in order |
| ContainmentProperties.WorkRunsNothing | Source/Public/Children/UIViewController+ChildViewControllers.swift:142-176 | no structural step of `replaceChild` is an action of its completion |
| ContainmentProperties.CompletionRunsOnceAfterTheWork | Source/Public/Children/UIViewController+ChildViewControllers.swift:142-176 | in every branch the completion runs once, after all structural steps, each action as often as the closure has it |
| ContainmentProperties.AddOrder | Source/Public/Children/UIViewController+ChildViewControllers.swift:40-54 | `addChild` registers the child, then hosts the view, then announces `didMove`; when animated the view is hosted inside the effect and `didMove` follows its end |
| ContainmentProperties.PlainAddOrder | Source/Public/Children/UIViewController+ChildViewControllers.swift:40-46 | the unanimated addition in that order |
| ContainmentProperties.AnimatedAddOrder | Source/Public/Children/UIViewController+ChildViewControllers.swift:47-54 | the animated addition in that order |
| ContainmentProperties.RemoveOrder | Source/Public/Children/UIViewController+ChildViewControllers.swift:88-103 | `willMove(nil)` is the first step; the view is detached before the child is removed; when animated, inside the effect and after its end respectively |
| ContainmentProperties.PlainRemoveOrder | Source/Public/Children/UIViewController+ChildViewControllers.swift:90-95 | the unanimated removal in that order |
| ContainmentProperties.AnimatedRemoveOrder | Source/Public/Children/UIViewController+ChildViewControllers.swift:90-102 | animated: `willMove(nil)` first, the view detached before the child is removed |
| ContainmentProperties.AnimatedRemoveEffectOrder | Source/Public/Children/UIViewController+ChildViewControllers.swift:96-102 | animated: the effect begins before the view is detached and ends before the child is removed |
| ContainmentProperties.AddAndRemoveCompleteOnce | Source/Public/Children/UIViewController+ChildViewControllers.swift:40-104 | `addChild` and `removeChild` run their completion exactly once, after their own steps |
| ContainmentProperties.ReplaceWithoutAnimationOrder | Source/Public/Children/UIViewController+ChildViewControllers.swift:143-146 | with no animation the old child is fully removed before the new child is registered |
| ContainmentProperties.OverPreviousOrder | Source/Public/Children/UIViewController+ChildViewControllers.swift:147-150 | the addition, including the end of its effect, is complete before the old child is told it will move |
| ContainmentProperties.UnderPreviousOrder | Source/Public/Children/UIViewController+ChildViewControllers.swift:151-157 | hidden, then hosted, then sent to the back, then shown, and only then is the old child told it will move |
| ContainmentProperties.UnderPreviousShape | Source/Public/Children/UIViewController+ChildViewControllers.swift:151-157 | the branch is the hidden addition followed by a removal that repeats none of its steps |
| ContainmentProperties.AddBehindOrder | Source/Public/Children/UIViewController+ChildViewControllers.swift:152-155 | the hidden addition's steps come in the source's order |
| ContainmentProperties.SimultaneousParts | Source/Public/Children/UIViewController+ChildViewControllers.swift:159-171 | both starting stages, then the finishing stages, then the completion |
| ContainmentProperties.SimultaneousBeginsBeforeEnds | Source/Public/Children/UIViewController+ChildViewControllers.swift:159-171 | every effect begins before any effect ends |
| ContainmentProperties.SimultaneousOverlap | Source/Public/Children/UIViewController+ChildViewControllers.swift:159-171 | the removal has begun before the addition's effect ends, and the new view is hosted before the removal's effect ends |
| ContainmentProperties.SimultaneousEndsInReportOrder | Source/Public/Children/UIViewController+ChildViewControllers.swift:162-168 | the finishing stages come in the order the animation engine reports them |
| ContainmentProperties.RemovePreviousThenAppearOrder | Source/Public/Children/UIViewController+ChildViewControllers.swift:172-175 | the old child is fully removed, including its effect, before the new child is registered |
| ContainmentProperties.EffectsOfStages | Source/Public/Children/UIViewController+ChildViewControllers.swift:47-102 | an addition or removal plays an effect with given options exactly when it was called with those options |
| ContainmentProperties.EffectsFollowProjections | Source/Public/Children/UIViewController+ChildViewControllers.swift:142-176 | `replaceChild` animates the appearance exactly with `additionOptions` and the disappearance exactly with `removalOptions`; with no animation nothing is animated |
| ContainmentProperties.ReplacedChildrenOutcome | Source/Public/Children/UIViewController+ChildViewControllers.swift:142-176 | in every branch, with distinct children: the old child is gone, the new child is last and present once, and the others keep their order |
| ContainmentProperties.ReplacedSubviewsOutcome | Source/Public/Children/UIViewController+ChildViewControllers.swift:142-176 | the new view is at the back under `.appearUnderPrevious` and at the front otherwise; the old view is gone and the others keep their order |
| ContainmentProperties.ReplaceWithItself | Source/Public/Children/UIViewController+ChildViewControllers.swift:142-176 | replacing a child by itself removes it in every branch that adds first, and keeps it, moved to the end, otherwise |
| LegacyContainment.ReplaceChild | Source/Public/UIViewController+ChildViewControllers.swift:89-119 | the legacy `replaceChild` over `StateTransitionBehavior`: child list, subviews and trace for each order |
| LegacyContainment.LegacyReplaceSteps | Source/Public/UIViewController+ChildViewControllers.swift:89-119 | reference definition of the legacy steps: the structural work of the order, then the completion |
| LegacyContainment.LegacyReplaced | Source/Public/UIViewController+ChildViewControllers.swift:89-119 | reference definition of the child list after the legacy `replaceChild`: removed then added for `removeExistingChildFirst`, added then removed otherwise |
| LegacyContainment.LegacyReplacedOutcome | Source/Public/UIViewController+ChildViewControllers.swift:89-119 | the new child is in the resulting list exactly when the order removes first or the children differ; a different old child is gone |
| LegacyContainment.AddThenRemove | Source/Public/UIViewController+ChildViewControllers.swift:97-100 | `addNewChildFirst` adds with `additionAnimations`; its completion removes with `removalAnimations` and the caller's completion |
| LegacyContainment.LegacyMatchesCurrent | Source/Public/UIViewController+ChildViewControllers.swift:96-118 | `removeExistingChildFirst` and `simultaneous` are the current `.removePreviousThenAppear` and `.appearAndSimultaneouslyRemove`; `addNewChildFirst` without a removal animation is `.appearOverPrevious` |
| LegacyContainment.AddFirstWithRemovalIsNew | Source/Public/UIViewController+ChildViewControllers.swift:97-100 | with a removal animation, `addNewChildFirst` plays a disappearance that `.appearOverPrevious` never plays |
| LegacyContainment.LegacyWorkRunsNothing | Source/Public/UIViewController+ChildViewControllers.swift:96-118 | no legacy structural step is a completion action |
| LegacyContainment.LegacyCompletionRunsOnce | Source/Public/UIViewController+ChildViewControllers.swift:96-118 | every order calls the completion exactly once, after all of its structural work |
| LegacyContainment.AddNewChildFirstOrder | Source/Public/UIViewController+ChildViewControllers.swift:97-100 | the new child has moved to the parent, after its effect when animated, before the old child is told it will move |
| LegacyContainment.AddNewChildFirstRemovalOrder | Source/Public/UIViewController+ChildViewControllers.swift:97-100 | the old child's disappearance begins only after the new child has moved to the parent |
| LegacyContainment.AddNewChildFirstShape | Source/Public/UIViewController+ChildViewControllers.swift:97-100 | the whole addition, then the whole removal, then the completion |
| SlotActions.DefaultTransitionAnimation | Source/Public/Containers/StatefulViewController.swift:66-68 | the default animation is `appearOverPrevious` with a 0.2 s ease-out cross-dissolve, whatever the states |
| Animation.DefaultAnimation | Source/Public/Containers/StatefulViewController.swift:66-68 | the default animation is `.appearOverPrevious` with a 0.2 s duration, ease-out and cross-dissolve |
| SlotActions.AnimationFor | Source/Public/Containers/StatefulViewController.swift:92 | the policy's animation when animated, none otherwise |
| SlotActions.DefaultPolicyAnimatesOnRequest | Source/Public/Containers/StatefulViewController.swift:66-92 | under the default policy a transition animates exactly when asked to |
| SlotActions.CommitsOnceThenCallers | Source/Public/Containers/StatefulViewController.swift:93-97 | after any structural work the continuation commits `state`, then `currentChild`, once each, then runs the caller's completion exactly as it is |
| SlotActions.Continuation | Source/Public/Containers/StatefulViewController.swift:93-97 | reference definition of the continuation handed to `replaceChild`: commit the state, then the child, then the caller's completion |
| CurrentSlot.StatefulViewController.constructor | Source/Public/Containers/StatefulViewController.swift:24-27 | the initial state, and no child yet |
| CurrentSlot.StatefulViewController.ConfigureInitialState | Source/Public/Containers/StatefulViewController.swift:41-49 | the first call adds the state's child and makes it current, with `state` unchanged; later calls change nothing |
| CurrentSlot.StatefulViewController.Transition | Source/Public/Containers/StatefulViewController.swift:78-98 | same state: only the completion runs. Not configured: takes the new state, configures, completes. Otherwise: `replaceChild` with the chosen animation, committing in its continuation. The current child stays a child except when it is replaced by itself in a branch that adds first |
| CurrentSlot.TransitionCommitsOnce | Source/Public/Containers/StatefulViewController.swift:93-97 | `state` and `currentChild` are committed once each, after every structural step and before the caller's completion, which runs once |
| CurrentSlot.ReplacingTransitionOutcome | Source/Public/Containers/StatefulViewController.swift:91-97 | after replacing with a different child, the old child is gone and the new one is the last child, present once |
| StatefulSlot.StatefulViewController.constructor | Source/Public/Stateful/StatefulViewController.swift:18-21 | the initial state, and no child yet |
| StatefulSlot.StatefulViewController.ConfigureInitialState | Source/Public/Stateful/StatefulViewController.swift:32-36 | unguarded: every call makes the state's child current and adds it again |
| StatefulSlot.StatefulViewController.Transition | Source/Public/Stateful/StatefulViewController.swift:46-63 | same state: only the completion runs; no current child: nothing happens, not even the completion; otherwise the same replacement as the current revision |
| StatefulSlot.ReconfigurationKeepsEarlierChild | Source/Public/Stateful/StatefulViewController.swift:32-36 | configuring twice with different children hosts both: the earlier child is never removed |
| EarlySlot.DefaultTransitionBehavior | Source/Public/StatefulViewController.swift:29-34 | the default behaviour is `addNewChildFirst` with no animations |
| EarlySlot.StatefulViewController.ConfigureInitialState | Source/Public/StatefulViewController.swift:41-45 | the state's child becomes current and is added, on every call |
| EarlySlot.StatefulViewController.Transition | Source/Public/StatefulViewController.swift:47-62 | same state: nothing happens, not even the completion; no current child: fatal; otherwise the legacy replacement with the behaviour for the two states, committing in its continuation; the engine stays valid unless the child is replaced by itself under an order that adds before it removes |
| EarlySlot.EarlyTransitionCommitsOnce | Source/Public/StatefulViewController.swift:57-61 | `state`, then `currentChild`, once each, after every structural step, then the caller's completion |
| EarlySlot.DefaultBehaviorAddsThenRemoves | Source/Public/StatefulViewController.swift:29-57 | under the default behaviour a transition adds the new child and then removes the old one without animation |
| NavigationBookkeeping.ApplyAllAppend | Source/Utility/Closures+Insert.swift:8-13 | running two closures in turn is running their concatenation |
| NavigationBookkeeping.CallersKeepTheBook | Source/Public/Containers/StatefulNavigationController.swift:97-100 | the caller's completion never touches the engine's bookkeeping |
| NavigationBookkeeping.PopBookkeeping | Source/Public/Containers/StatefulNavigationController.swift:147-151 | the pop closure cuts the states to the stack's depth and commits the new state |
| NavigationBookkeeping.PushBookkeeping | Source/Public/Containers/StatefulNavigationController.swift:165-167 | the push closure appends the new state and commits it |
| NavigationBookkeeping.CommitBookkeeping | Source/Public/Containers/StatefulNavigationController.swift:98-113 | the committing closure changes the state and nothing else |
| NavigationBookkeeping.PerformsAppend | Source/Utility/Closures+Insert.swift:9-12 | invoking two closures in turn is recorded as invoking their concatenation |
| CurrentStack.DefaultShouldPop | Source/Public/Containers/StatefulNavigationController.swift:79-81 | the default predicate holds exactly for equal states |
| CurrentStack.PopIndex | Source/Public/Containers/StatefulNavigationController.swift:180-185 | none exactly when no recorded state satisfies the predicate; otherwise an index that satisfies it, with no later one that does |
| CurrentStack.BranchOf | Source/Public/Containers/StatefulNavigationController.swift:103-107 | the branch taken, with the pop index in range |
| CurrentStack.Transitioned | Source/Public/Containers/StatefulNavigationController.swift:97-140 | reference definition of the stack, recorded states and state after a transition, with the overwritten entry recording the new state (corrected) |
| CurrentStack.TransitionedAsWritten | Source/Public/Containers/StatefulNavigationController.swift:97-140 | the same as written: the overwritten entry keeps its old recorded state |
| CurrentStack.TransitionEvents | Source/Public/Containers/StatefulNavigationController.swift:97-178 | reference definition of the calls a transition makes and the closure actions it runs, branch by branch |
| CurrentStack.Committing | Source/Public/Containers/StatefulNavigationController.swift:98-100 | reference definition of the completion every transition builds with `insert(_:before:)`: commit the new state, then the caller's completion |
| CurrentStack.StatefulNavigationController.constructor | Source/Public/Containers/StatefulNavigationController.swift:35-37 | the initial state, an empty navigation stack and no recorded states |
| CurrentStack.StatefulNavigationController.CurrentChild | Source/Public/Containers/StatefulNavigationController.swift:22-24 | the controller on top of the stack, or none when it is empty |
| CurrentStack.StatefulNavigationController.ConfigureInitialState | Source/Public/Containers/StatefulNavigationController.swift:53-58 | the stack is the state's child alone and the states are `[state]` |
| CurrentStack.StatefulNavigationController.Run | Source/Public/Containers/StatefulNavigationController.swift:98-100 | invoking a closure updates the bookkeeping as the fold of its actions does, at the current depth |
| CurrentStack.StatefulNavigationController.Pop | Source/Public/Containers/StatefulNavigationController.swift:146-162 | pops to the child, then runs the truncating closure, animated or not |
| CurrentStack.StatefulNavigationController.Push | Source/Public/Containers/StatefulNavigationController.swift:164-178 | pushes the child, then runs the appending closure, animated or not |
| CurrentStack.StatefulNavigationController.Transition | Source/Public/Containers/StatefulNavigationController.swift:97-140 | the stack, states and state become `Transitioned` of the old ones (the overwrite corrected as in Findings); the calls match `TransitionEvents`; one state stays recorded per controller |
| CurrentStack.StatefulNavigationController.PopCommitting | Source/Public/Containers/StatefulNavigationController.swift:114-128 | popping to a child on the stack: the states cut to the new depth and the state committed |
| CurrentStack.StatefulNavigationController.OverwriteThenPopCommitting | Source/Public/Containers/StatefulNavigationController.swift:129-133 | the controller at the pop index becomes the new child and is popped to, and the state is committed; (corrected) the recorded state at the pop index also becomes the new state, which line 132 does not do |
| CurrentStack.StatefulNavigationController.PushCommitting | Source/Public/Containers/StatefulNavigationController.swift:135-138 | pushing: the new state appended and committed |
| CurrentStack.StatefulNavigationController.DidUpdateStackCount | Source/Public/Containers/StatefulNavigationController.swift:191-194 | the states are cut to the reported depth, and stay one per controller when the report is the stack's depth |
| CurrentStack.OverwriteThenPopShape | Source/Public/Containers/StatefulNavigationController.swift:132-133 | overwriting index i and popping to the new child leaves the controllers below i and then the new child |
| CurrentStack.TransitionKeepsStatesInStep | Source/Public/Containers/StatefulNavigationController.swift:97-194 | every transition keeps one recorded state per controller and commits the new state; except after popping to an equal state, the new state's child is on top |
| CurrentStack.DefaultPredicateNeverOverwrites | Source/Public/Containers/StatefulNavigationController.swift:120-134 | under the default predicate the overwrite branch is never taken |
| CurrentStack.CorrespondenceRulesOutPopToEqual | Source/Public/Containers/StatefulNavigationController.swift:114-128 | when each controller is the child of its recorded state, an equal recorded state has its child on the stack, so that branch is taken first |
| CurrentStack.TransitionKeepsCorrespondence | Source/Public/Containers/StatefulNavigationController.swift:97-140 | with the overwritten entry brought up to date, every transition keeps each controller the child of its recorded state |
| CurrentStack.PopKeepsCorrespondence | Source/Public/Containers/StatefulNavigationController.swift:114-119 | the pop to a contained child keeps the correspondence |
| CurrentStack.OverwriteKeepsCorrespondence | Source/Public/Containers/StatefulNavigationController.swift:129-133 | the corrected overwrite keeps the correspondence |
| CurrentStack.AsWrittenOverwriteBreaksCorrespondence | Source/Public/Containers/StatefulNavigationController.swift:129-133 | as written, the overwrite leaves the old state recorded under the new child |
| CurrentStack.StaleExampleFirstStep | Source/Public/Containers/StatefulNavigationController.swift:120-133 | a concrete overwrite, as written and corrected |
| CurrentStack.StaleExampleSecondStepAsWritten | Source/Public/Containers/StatefulNavigationController.swift:120-128 | the stale entry makes the next transition pop to the wrong controller |
| CurrentStack.StaleExampleSecondStepCorrected | Source/Public/Containers/StatefulNavigationController.swift:120-133 | corrected, the next transition shows the right child |
| CurrentStack.StaleEntryShowsWrongChild | Source/Public/Containers/StatefulNavigationController.swift:120-133 | as written, two transitions leave the child of 3 on top in state 1; corrected they return to the starting stack |
| CurrentStack.ContainedChildIsPoppedTo | Source/Public/Containers/StatefulNavigationController.swift:104-119 | a child already on the stack is popped to whether or not popping to existing states is allowed |
| CurrentStack.ReturningPopsBack | Source/Public/Containers/StatefulNavigationController.swift:114-138 | pushing b and going back to a pops back to the starting stack and states |
| CurrentStack.TransitionCommitsThenCompletes | Source/Public/Containers/StatefulNavigationController.swift:97-178 | every transition's record ends with the commit of the new state, then the caller's whole completion; except on the first configuration, right before the commit comes the stack bookkeeping: the truncation of the recorded states after a pop, the appended state after a push |
| StatefulStack.DefaultCanPop | Source/Public/Stateful/Navigation/NavigationEquatable.swift:32-34 | the default `canPop` holds exactly for equal states |
| StatefulStack.BranchOf | Source/Public/Stateful/Navigation/StatefulNavigationController.swift:55-78 | never the branch that pops to an equal state without overwriting: any pop index is overwritten |
| StatefulStack.Transitioned | Source/Public/Stateful/Navigation/StatefulNavigationController.swift:54-79 | reference definition of the stack, recorded states and state after a transition, with the overwriting pop committing and recording the new state (corrected) |
| StatefulStack.TransitionedAsWritten | Source/Public/Stateful/Navigation/StatefulNavigationController.swift:54-79 | the same as written: the overwriting pop keeps the old state and the old recorded entry |
| StatefulStack.Augmented | Source/Public/Stateful/Navigation/StatefulNavigationController.swift:62-65 | reference definition of `augmentedCompletion`: commit the new state, then the caller's completion |
| StatefulStack.TransitionEvents | Source/Public/Stateful/Navigation/StatefulNavigationController.swift:54-119 | reference definition of the calls and closure actions of a transition, each pop and push handed `augmentedCompletion` (corrected) |
| StatefulStack.TransitionEventsAsWritten | Source/Public/Stateful/Navigation/StatefulNavigationController.swift:54-119 | the same as written: the overwriting pop is handed the caller's completion alone |
| StatefulStack.StatefulNavigationController.constructor | Source/Public/Stateful/Navigation/StatefulNavigationController.swift:26-31 | the initial state, an empty stack and no recorded states |
| StatefulStack.StatefulNavigationController.ConfigureInitialState | Source/Public/Stateful/Navigation/StatefulNavigationController.swift:43-48 | the stack is the state's child alone and the states are `[state]` |
| StatefulStack.StatefulNavigationController.Run | Source/Public/Stateful/Navigation/StatefulNavigationController.swift:62-65 | invoking a closure updates the bookkeeping as the fold of its actions does |
| StatefulStack.StatefulNavigationController.Pop | Source/Public/Stateful/Navigation/StatefulNavigationController.swift:85-102 | pops to the child, then cuts the states to the depth and runs the given completion |
| StatefulStack.StatefulNavigationController.Push | Source/Public/Stateful/Navigation/StatefulNavigationController.swift:104-119 | pushes the child, then appends the state and runs the given completion |
| StatefulStack.StatefulNavigationController.Transition | Source/Public/Stateful/Navigation/StatefulNavigationController.swift:54-79 | the new stack, states and state are `Transitioned` of the old ones (corrected as in Findings), with one state recorded per controller |
| StatefulStack.StatefulNavigationController.PopCommitting | Source/Public/Stateful/Navigation/StatefulNavigationController.swift:67-71 | popping to a contained child with the augmented completion: states cut, state committed |
| StatefulStack.StatefulNavigationController.OverwriteThenPopCommitting | Source/Public/Stateful/Navigation/StatefulNavigationController.swift:72-75 | the controller at the pop index becomes the new child and is popped to; (corrected) the pop gets `augmentedCompletion`, so the state is committed, and the recorded state at the pop index becomes the new state; lines 72-75 do neither |
| StatefulStack.StatefulNavigationController.PushCommitting | Source/Public/Stateful/Navigation/StatefulNavigationController.swift:76-78 | pushing: the new state appended, then committed |
| StatefulStack.StatefulNavigationController.DidUpdateStackCount | Source/Public/Stateful/Navigation/StatefulNavigationController.swift:132-135 | the states are cut to the reported depth |
| StatefulStack.TransitionKeepsCorrespondence | Source/Public/Stateful/Navigation/StatefulNavigationController.swift:54-79 | corrected, every transition keeps each controller the child of its recorded state, commits the new state and shows its child |
| StatefulStack.TransitionKeepsStatesInStep | Source/Public/Stateful/Navigation/StatefulNavigationController.swift:54-119 | both as written and corrected, a transition keeps one recorded state per controller and puts the new state's child on top; corrected it always commits the new state, as written everywhere but in the overwriting pop, which keeps the old one |
| StatefulStack.SameAsCurrent | Source/Public/Stateful/Navigation/StatefulNavigationController.swift:54-79 | outside the current revision's pop-to-equal branch, this revision takes the same branch with the same outcome |
| StatefulStack.AsWrittenPopKeepsOldState | Source/Public/Stateful/Navigation/StatefulNavigationController.swift:72-75 | as written, the overwrite-and-pop branch leaves `state` at the old value and the entry stale |
| StatefulStack.AsWrittenPopNeverCommits | Source/Public/Stateful/Navigation/StatefulNavigationController.swift:72-75 | as written, that branch's record commits no state at all; corrected, it commits the new one |
| EarlyStack.DefaultRule | Source/Public/StatefulNavigationController.swift:41-51 | the default pop rule is `.no` |
| EarlyStack.ExistingChild | Source/Public/StatefulNavigationController.swift:104-108 | none exactly when no controller satisfies the equality; otherwise the first, bottom-most one |
| EarlyStack.MoveOf | Source/Public/StatefulNavigationController.swift:68-87 | the move taken, with the pop index in range |
| EarlyStack.NewCompletion | Source/Public/StatefulNavigationController.swift:73-76 | reference definition of `newCompletion`: the caller's completion, then the commit of the new state |
| EarlyStack.Transitioned | Source/Public/StatefulNavigationController.swift:68-88 | reference definition of the stack and state after a transition: unchanged when ignored, popped to the first match, pushed, or none when the push would be fatal |
| EarlyStack.TransitionEvents | Source/Public/StatefulNavigationController.swift:68-102 | reference definition of the calls a transition makes and the closure actions it runs |
| EarlyStack.StatefulNavigationController.constructor | Source/Public/StatefulNavigationController.swift:10-51 | the initial state, an empty stack, and the default rule |
| EarlyStack.StatefulNavigationController.ConfigureInitialState | Source/Public/StatefulNavigationController.swift:53-57 | the stack is the state's child alone |
| EarlyStack.StatefulNavigationController.Run | Source/Public/StatefulNavigationController.swift:73-76 | invoking a closure commits the state as the fold of its actions does |
| EarlyStack.StatefulNavigationController.Pop | Source/Public/StatefulNavigationController.swift:90-95 | pops to the child, then runs the completion, which commits the new state |
| EarlyStack.StatefulNavigationController.Push | Source/Public/StatefulNavigationController.swift:97-102 | pushes the child and runs the completion; pushing a controller already on the stack is fatal |
| EarlyStack.StatefulNavigationController.Transition | Source/Public/StatefulNavigationController.swift:68-88 | ignored, popped to the first match, or pushed; fatal exactly when the push would duplicate a controller |
| EarlyStack.CommitsLast | Source/Public/StatefulNavigationController.swift:73-76 | the completion leaves only the new state committed |
| EarlyStack.CompletionRunsBeforeCommit | Source/Public/StatefulNavigationController.swift:73-76 | the caller's completion runs before `state := newState` |
| EarlyStack.DefaultRuleAlwaysPushes | Source/Public/StatefulNavigationController.swift:51-86 | under the default rule every transition that is not ignored pushes |
| EarlyStack.PopsToFirstEqual | Source/Public/StatefulNavigationController.swift:78-108 | `.yes(equality)` pops to the bottom-most match and pushes otherwise |
| EarlyStack.IgnoredTransitionDoesNothing | Source/Public/StatefulNavigationController.swift:69-72 | with `ignoresSameStateChanges`, a same-state transition changes nothing and runs no completion |
| EarlyStack.TransitionKeepsStackDistinct | Source/Public/StatefulNavigationController.swift:68-108 | a transition that finishes keeps the stack free of duplicates |
| EarlyStack.ReturningPopsBack | Source/Public/StatefulNavigationController.swift:79-84 | with identity as the equality, pushing b and going back to a pops back to the starting stack |
| TabItems.Controllers | Source/Public/Containers/StatefulTabBarController.swift:50-56 | every item's controller, in order |
| TabItems.ItemIndex | Source/Public/Containers/StatefulTabBarController.swift:62-64 | none exactly when no item has the state; otherwise the first item that has it |
| TabItems.ItemIndexIsFirstState | Source/Public/Containers/StatefulTabBarController.swift:62-64 | the lookup finds an item exactly when the state is one of the items' states, at that state's first position |
| TabItems.FoundControllerIsAnItem | Source/Public/Containers/StatefulTabBarController.swift:65-66 | the controller selected is one of the items' controllers |
| CurrentTabs.StatefulTabBarController.constructor | Source/Public/Containers/StatefulTabBarController.swift:32-36 | the items and the initial item, nothing embedded yet |
| CurrentTabs.StatefulTabBarController.ConfigureInitialState | Source/Public/Containers/StatefulTabBarController.swift:50-56 | registers every item's controller in order and selects the current item's controller |
| CurrentTabs.StatefulTabBarController.Transition | Source/Public/Containers/StatefulTabBarController.swift:61-68 | fatal exactly when no item has the state; otherwise the first such item becomes current and its controller is selected; the items never change |
| CurrentTabs.TransitionIsIdempotent | Source/Public/Containers/StatefulTabBarController.swift:61-68 | two transitions to the same state on a valid engine: the second has the first one's outcome and leaves the current item and the tab bar's selection where the first put them; when it finishes, the current item has the state and is selected |
| StatefulTabs.StatefulTabBarController.constructor | Source/Public/Stateful/StatefulTabBarController.swift:24-28 | the items and the current item, nothing embedded yet |
| StatefulTabs.StatefulTabBarController.ConfigureInitialState | Source/Public/Stateful/StatefulTabBarController.swift:39-45 | registers every item's controller in order and selects the current item's controller |
| StatefulTabs.StatefulTabBarController.Transition | Source/Public/Stateful/StatefulTabBarController.swift:47-54 | fatal exactly when no item has the state; otherwise the first such item becomes current and is selected |
| EarlyTabs.StatefulTabBarController.constructor | Source/Public/StatefulTabBarController.swift:30-34 | the initial state is the current item's state |
| EarlyTabs.StatefulTabBarController.ConfigureInitialState | Source/Public/StatefulTabBarController.swift:36-42 | registers every controller and selects the current one |
| EarlyTabs.StatefulTabBarController.Transition | Source/Public/StatefulTabBarController.swift:58-64 | fatal exactly when no item has the state; otherwise the first matching index is selected and `state` is the new one; the completion never runs and `currentItem` is unchanged |

## Left out

- Auto Layout: `constrainToEdges` and the container view argument. Every child is hosted in the parent's own view, as the convenience overloads do.
- Animation internals. `UIView.transition`, durations and option sets are opaque data. An effect is a begin step and an end step.
- The timing of `CATransaction` and of `DispatchGroup.notify` on the main queue. An animated pop or push runs its closure right after the call, as it does once the animation ends. Overlapping transitions are not modelled: each transition is complete before the next starts.
- Modal presentation. `currentChild` reads `visibleViewController`, which is the top of the navigation stack when nothing is presented modally, so `CurrentStack.StatefulNavigationController.CurrentChild` reads the top of the stack.
- `ChildNavigationController`'s delegate plumbing. Only the reported stack depth is modelled, as `DidUpdateStackCount`.
- Logging (`Reinstate.log`, `print`). It changes no state.
- `childViewController(for:)` is a deterministic function of the state. The source calls it afresh each time, and a subclass could return a new object on each call. As a result, `CurrentStack.StatefulNavigationController` never takes the current stack engine's pop-to-equal branch (`Source/Public/Containers/StatefulNavigationController.swift:117-128`): under the correspondence it keeps, an equal recorded state means its child is already on the stack (`CurrentStack.CorrespondenceRulesOutPopToEqual`). That branch, which a factory returning fresh controllers takes whenever a state comes back, is modelled only in the reference functions `CurrentStack.BranchOf`, `CurrentStack.Transitioned` and `CurrentStack.TransitionEvents`.
- UIKit exceptions other than pushing a controller that is already on the stack. In particular, selecting a tab bar controller that is not one of its controllers raises `NSInvalidArgumentException` in UIKit; `UIKitStacks.TabBar.Select` leaves the selection as it was instead.
- `assertionFailure` in a debug build. The model follows a release build.
- `ignoresSameStateChanges` of the oldest stack engine: the superclass that declares it is not part of this model. Its value is a constant of the engine.
- `transitionAnimation` of the oldest stack engine, and the oldest tab bar's animated `transition(to:animated:completion:)`. Both change nothing: they return `nil` or do nothing, so there is nothing to model.
- `CurrentSlot.StatefulViewController.Transition`: the fields the continuation assigns are assigned as soon as `replaceChild` returns. The trace records the commit actions at the moment the continuation runs, which is the last step of every branch.
- `CurrentStack.StatefulNavigationController.Transition`: it implements the corrected overwrite described under Findings. `CurrentStack.TransitionedAsWritten` keeps the code as written.
- `CurrentStack.Transitioned`: the overwritten entry records the new state. This is the correction described under Findings; `CurrentStack.TransitionedAsWritten` keeps line 132 as written.
- `CurrentStack.StatefulNavigationController.OverwriteThenPopCommitting`: it also records `newState` at the overwritten index, which `Source/Public/Containers/StatefulNavigationController.swift:132` does not; this is the correction described under Findings.
- `StatefulStack.StatefulNavigationController.Transition`: it implements the corrected overwrite-and-pop described under Findings. `StatefulStack.TransitionedAsWritten` and `StatefulStack.TransitionEventsAsWritten` keep the code as written.
- `StatefulStack.Transitioned`: the overwriting pop commits the new state and records it at the overwritten index. This is the correction described under Findings; `StatefulStack.TransitionedAsWritten` keeps lines 72-75 as written.
- `StatefulStack.TransitionEvents`: the overwriting pop is handed `augmentedCompletion`. This is the correction described under Findings; `StatefulStack.TransitionEventsAsWritten` records the caller's completion alone, as lines 72-75 do.
- `StatefulStack.StatefulNavigationController.OverwriteThenPopCommitting`: it pops with `augmentedCompletion`, so `state` is committed, and it records `newState` at the overwritten index; `Source/Public/Stateful/Navigation/StatefulNavigationController.swift:72-75` does neither. This is the correction described under Findings.

## Findings

| source | as written | input that shows it | evidently intended | confidence | as-written member | corrected member |
|---|---|---|---|---|---|---|
| Source/Public/Containers/StatefulNavigationController.swift:129-133 | the controller at `popIndex` is replaced by the new child, but `statesInNavigationStack[popIndex]` keeps the old state | child of s is s + 10, predicate "same parity"; stack [10, 11] for states [0, 1] in state 1; go to 3, then back to 1: the second transition finds 1 recorded on top, pops to controller 13 and leaves the child of 3 shown in state 1 | the overwritten entry records the new state, so every controller stays the child of its recorded state | not executed | CurrentStack.StaleEntryShowsWrongChild | CurrentStack.TransitionKeepsCorrespondence |
| Source/Public/Stateful/Navigation/StatefulNavigationController.swift:72-75 | the overwrite-and-pop branch passes the caller's raw `completion`, not `augmentedCompletion`, so `state` is never set to the new state; the entry at `popIndex` also stays stale | any stack whose recorded states include one with `canPop(to:for:)` true for the new state while the new child is not on the stack, for example states [0, 1] and a `canPop` of "same parity" going to 3 | like every other branch, the pop commits `state := newState` and records it | not executed | StatefulStack.AsWrittenPopNeverCommits | StatefulStack.TransitionKeepsCorrespondence |
