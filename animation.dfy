// Source/Public/StateTransitionAnimation.swift (and the same enum in
// Source/Public/Children/StateTransitionAnimation.swift): the visual
// behaviours of a state transition and their two option projections.

module Animation {
  import opened Wrappers

  /** The members of `UIViewAnimationOptions` the library itself uses; any
      other option set is treated as opaque. */
  datatype AnimationFlag = CurveEaseIn | CurveEaseOut | TransitionCrossDissolve | OtherFlag(raw: nat)

  /** `StateTransitionAnimationOptions`: a duration and an option set. */
  datatype AnimationOptions = AnimationOptions(duration: real, flags: set<AnimationFlag>)

  /** `StateTransitionAnimation`. */
  datatype StateTransitionAnimation =
    | AppearOverPrevious(onAppear: Option<AnimationOptions>)
    | AppearUnderPrevious(onRemove: Option<AnimationOptions>)
    | AppearAndSimultaneouslyRemove(onAppear: Option<AnimationOptions>, onRemove: Option<AnimationOptions>)
    | RemovePreviousThenAppear(onRemove: Option<AnimationOptions>, onAppear: Option<AnimationOptions>)

  /** The four cases, without their options. */
  datatype Kind = OverPrevious | UnderPrevious | Simultaneous | RemoveThenAppear

  function KindOf(a: StateTransitionAnimation): Kind
  {
    match a
    case AppearOverPrevious(_) => OverPrevious
    case AppearUnderPrevious(_) => UnderPrevious
    case AppearAndSimultaneouslyRemove(_, _) => Simultaneous
    case RemovePreviousThenAppear(_, _) => RemoveThenAppear
  }

  /** `additionOptions`: the options used while the new child appears. An
      animation that appears under the previous child adds it without
      animation. */
  function AdditionOptions(a: StateTransitionAnimation): (r: Option<AnimationOptions>)
    ensures a.AppearUnderPrevious? ==> r.None?
    ensures !a.AppearUnderPrevious? ==> r == a.onAppear
  {
    match a
    case AppearOverPrevious(onAppear) => onAppear
    case AppearUnderPrevious(_) => None
    case AppearAndSimultaneouslyRemove(onAppear, _) => onAppear
    case RemovePreviousThenAppear(_, onAppear) => onAppear
  }

  /** `removalOptions`: the options used while the old child disappears. An
      animation that appears over the previous child removes it without
      animation. */
  function RemovalOptions(a: StateTransitionAnimation): (r: Option<AnimationOptions>)
    ensures a.AppearOverPrevious? ==> r.None?
    ensures !a.AppearOverPrevious? ==> r == a.onRemove
  {
    match a
    case AppearOverPrevious(_) => None
    case AppearUnderPrevious(onRemove) => onRemove
    case AppearAndSimultaneouslyRemove(_, onRemove) => onRemove
    case RemovePreviousThenAppear(onRemove, _) => onRemove
  }

  /** Builds the animation of a given kind from an addition and a removal
      option; the option a kind does not carry is ignored. */
  function FromProjections(k: Kind, addition: Option<AnimationOptions>, removal: Option<AnimationOptions>): StateTransitionAnimation
  {
    match k
    case OverPrevious => AppearOverPrevious(addition)
    case UnderPrevious => AppearUnderPrevious(removal)
    case Simultaneous => AppearAndSimultaneouslyRemove(addition, removal)
    case RemoveThenAppear => RemovePreviousThenAppear(removal, addition)
  }

  /** The two projections lose nothing: together with the case they give
      back the animation, and for a case's own parameters building and then
      projecting gives the parameters back. */
  lemma ProjectionsRoundTrip(a: StateTransitionAnimation)
    ensures FromProjections(KindOf(a), AdditionOptions(a), RemovalOptions(a)) == a
  {
  }

  lemma ProjectionsOfBuilt(k: Kind, addition: Option<AnimationOptions>, removal: Option<AnimationOptions>)
    ensures k != UnderPrevious ==> AdditionOptions(FromProjections(k, addition, removal)) == addition
    ensures k != OverPrevious ==> RemovalOptions(FromProjections(k, addition, removal)) == removal
    ensures k == UnderPrevious ==> AdditionOptions(FromProjections(k, addition, removal)).None?
    ensures k == OverPrevious ==> RemovalOptions(FromProjections(k, addition, removal)).None?
  {
  }

  /** The default single-slot animation of the library: appear over the
      previous child with a 0.2 second ease-out cross-dissolve. */
  function DefaultAnimation(): (r: StateTransitionAnimation)
    ensures r.AppearOverPrevious? && r.onAppear.Some?
    ensures r.onAppear.value.duration == 0.2
    ensures r.onAppear.value.flags == {CurveEaseOut, TransitionCrossDissolve}
  {
    AppearOverPrevious(Some(AnimationOptions(0.2, {CurveEaseOut, TransitionCrossDissolve})))
  }
}
