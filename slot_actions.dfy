// What the single-slot engines of Source/Public/Containers/ and
// Source/Public/Stateful/ share: the default animation policy, and the
// continuation handed to `replaceChild` (all three revisions of
// `StatefulViewController` commit `state`, then `currentChild`, then call
// the caller's completion).

module SlotActions {
  import opened Wrappers
  import opened Sequences
  import opened Containment
  import opened Animation
  import opened ContainmentProperties

  /** The default `transitionAnimation(from:to:)`: whatever the states,
      appear over the previous child with a 0.2 second ease-out
      cross-dissolve. */
  function DefaultTransitionAnimation<S>(oldState: S, newState: S): (r: Option<StateTransitionAnimation>)
    ensures r.Some? && r.value.AppearOverPrevious? && r.value.onAppear.Some?
    ensures r.value.onAppear.value == AnimationOptions(0.2, {CurveEaseOut, TransitionCrossDissolve})
  {
    Some(DefaultAnimation())
  }

  /** The animation a transition uses: the policy's choice when animated,
      none otherwise. */
  function AnimationFor<S>(policy: (S, S) -> Option<StateTransitionAnimation>, animated: bool,
                           oldState: S, newState: S): (r: Option<StateTransitionAnimation>)
    ensures !animated ==> r.None?
    ensures animated ==> r == policy(oldState, newState)
  {
    if animated then policy(oldState, newState) else None
  }

  /** The default policy animates only when asked to. */
  lemma DefaultPolicyAnimatesOnRequest<S>(animated: bool, oldState: S, newState: S)
    ensures AnimationFor(DefaultTransitionAnimation, animated, oldState, newState)
            == if animated then Some(DefaultAnimation()) else None
  {
  }

  /** One effect of a single-slot engine's completion closures. */
  datatype Action<S, C, A> =
    | CommitState(s: S)       // self.state = newState
    | CommitChild(c: C)       // self.currentChild = newChild
    | Caller(a: A)            // one effect of the caller's own completion

  /** The caller's completion, as actions of the engine's closures. */
  function Callers<S, C, A>(completion: seq<A>): (r: seq<Action<S, C, A>>)
    ensures |r| == |completion|
  {
    seq(|completion|, i requires 0 <= i < |completion| => Caller(completion[i]))
  }

  /** The continuation of `replaceChild`: commit the state, then the
      child, then run the caller's completion. */
  function Continuation<S, C, A>(s: S, c: C, completion: seq<A>): seq<Action<S, C, A>>
  {
    [CommitState(s), CommitChild(c)] + Callers(completion)
  }

  lemma CallersAreTheCompletion<S, C, A>(completion: seq<A>)
    ensures forall i :: 0 <= i < |completion| ==> Callers<S, C, A>(completion)[i] == Caller(completion[i])
    ensures forall s: S :: CommitState(s) !in Callers<S, C, A>(completion)
    ensures forall c: C :: CommitChild(c) !in Callers<S, C, A>(completion)
  {
  }

  /** Whatever structural work precedes it, the continuation commits the
      state and the child exactly once each, right after the last
      structural step and in that order, and only then runs the caller's
      completion, each of its effects exactly as often as the caller's
      closure does. */
  lemma {:induction false} CommitsOnceThenCallers<S, C, A>(work: seq<Step<C, Action<S, C, A>>>, s: S, c: C,
                                                           completion: seq<A>, a: A)
    requires NoActions(work)
    ensures var t := work + Runs(Continuation(s, c, completion));
            && |t| == |work| + 2 + |completion|
            && (forall i :: 0 <= i < |work| ==> !t[i].Ran?)
            && t[|work|] == Ran(CommitState(s)) && t[|work| + 1] == Ran(CommitChild(c))
            && (forall i :: |work| + 2 <= i < |t| ==> t[i] == Ran(Caller(completion[i - |work| - 2])))
            && Count(t, Ran(CommitState(s))) == 1
            && Count(t, Ran(CommitChild(c))) == 1
            && Count(t, Ran(Caller(a))) == Count(completion, a)
  {
    var k := Continuation(s, c, completion);
    ContinuationCounts(s, c, completion, a);
    WorkThenCompletion(work, k, CommitState(s));
    WorkThenCompletion(work, k, CommitChild(c));
    WorkThenCompletion(work, k, Caller(a));
  }

  lemma ContinuationCounts<S, C, A>(s: S, c: C, completion: seq<A>, a: A)
    ensures var k := Continuation(s, c, completion);
            && k[0] == CommitState(s) && k[1] == CommitChild(c)
            && (forall i :: 2 <= i < |k| ==> k[i] == Caller(completion[i - 2]))
            && Count(k, CommitState(s)) == 1
            && Count(k, CommitChild(c)) == 1
            && Count(k, Caller(a)) == Count(completion, a)
  {
    var first: seq<Action<S, C, A>> := [CommitState(s)];
    var second: seq<Action<S, C, A>> := [CommitChild(c)];
    var rest := Callers<S, C, A>(completion);
    CallersAreTheCompletion<S, C, A>(completion);
    assert Continuation(s, c, completion) == first + (second + rest);
    CountAppend(first, second + rest, CommitState(s));
    CountAppend(second, rest, CommitState(s));
    CountAppend(first, second + rest, CommitChild(c));
    CountAppend(second, rest, CommitChild(c));
    CallerCount<S, C, A>(completion, a);
    CountAppend(first, second + rest, Caller(a));
    CountAppend(second, rest, Caller(a));
  }

  lemma {:induction false} CallerCount<S, C, A>(completion: seq<A>, a: A)
    ensures Count(Callers<S, C, A>(completion), Caller(a)) == Count(completion, a)
  {
    if completion != [] {
      var head: seq<Action<S, C, A>> := [Caller(completion[0])];
      assert Callers<S, C, A>(completion) == head + Callers<S, C, A>(completion[1..]);
      CountAppend(head, Callers<S, C, A>(completion[1..]), Caller(a));
      CallerCount<S, C, A>(completion[1..], a);
    }
  }
}
